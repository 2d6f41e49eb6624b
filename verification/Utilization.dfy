/** How full a prefix is, and when "100 percent" means that nothing is left to hand out.
    The percentage is the exact integer floor. */
module Utilization {
  import opened Cidr
  import opened IpAllocation

  function Percent(part: nat, whole: nat): (r: nat)
    requires whole > 0
    ensures r * whole <= 100 * part < (r + 1) * whole
  {
    Quotient(100 * part, whole)
  }

  lemma PercentFull(part: nat, whole: nat)
    requires whole > 0 && part <= whole
    ensures Percent(part, whole) <= 100
    ensures Percent(part, whole) == 100 <==> part == whole
  {
    DivRange(100 * part, whole, 100);
    DivRange(100 * part, whole, Percent(part, whole));
    if Percent(part, whole) > 100 {
      MulMono(101, Percent(part, whole), whole);
    }
  }

  // ---------------------------------------------------------------- sizes of address sets

  function Span(lo: nat, n: nat): set<nat> {
    set x: nat | lo <= x < lo + n && InSpan(x, lo, n)
  }

  predicate InSpan(x: nat, lo: nat, n: nat) { lo <= x < lo + n }

  lemma {:induction false} SpanSize(lo: nat, n: nat)
    ensures |Span(lo, n)| == n
    decreases n
  {
    if n == 0 {
      assert Span(lo, n) == {};
    } else {
      SpanSize(lo, n - 1);
      assert Span(lo, n) == Span(lo, n - 1) + {lo + n - 1} by {
        forall x ensures x in Span(lo, n) <==> x in Span(lo, n - 1) + {lo + n - 1} {
          assert InSpan(x, lo, n) <==> InSpan(x, lo, n - 1) || x == lo + n - 1;
        }
      }
    }
  }

  lemma RangeSize(b: Block)
    requires b.Valid()
    ensures |Range(b)| == b.Size()
  {
    SpanSize(b.First(), b.Size());
    forall x ensures x in Range(b) <==> x in Span(b.First(), b.Size()) {
      assert b.Has(x) <==> InSpan(x, b.First(), b.Size());
    }
    assert Range(b) == Span(b.First(), b.Size());
  }

  lemma SubsetSize(a: set<nat>, b: set<nat>)
    requires a <= b
    ensures |a| <= |b| && (|a| == |b| <==> a == b)
  {
    assert b == a + (b - a);
  }

  // ---------------------------------------------------------------- containers

  /** The addresses of all child blocks together, wherever they lie. */
  function Space(children: set<Block>): set<nat>
    requires forall c :: c in children ==> c.Valid()
  {
    set c, x | c in children && x in Range(c) :: x
  }

  /** What the container's block has besides. */
  function AvailableSpace(b: Block, children: set<Block>): set<nat>
    requires b.Valid() && forall c :: c in children ==> c.Valid()
  {
    Range(b) - Space(children)
  }

  /** The size of the union of the children, which is what overlapping children count for. */
  function ContainerUtilization(b: Block, children: set<Block>): nat
    requires b.Valid() && forall c :: c in children ==> c.Valid()
  {
    Percent(|Space(children)|, b.Size())
  }

  /** Blocks that the database finds inside the container have no address outside it. */
  lemma SpaceInside(b: Block, children: set<Block>)
    requires b.Valid() && forall c :: c in children ==> c.Valid() && b.ContainsOrEquals(c)
    ensures Space(children) <= Range(b)
  {
    forall x | x in Space(children) ensures x in Range(b) {
      var c :| c in children && x in Range(c);
      ContainsMeansInclusion(b, c);
      assert c.Has(x);
    }
  }

  /** The percentage is the floor of the exact one. */
  lemma ContainerFloor(b: Block, children: set<Block>)
    requires b.Valid() && forall c :: c in children ==> c.Valid()
    ensures var u := ContainerUtilization(b, children);
            u * b.Size() <= 100 * |Space(children)| < (u + 1) * b.Size()
  {
  }

  /** A container (or an aggregate) is between 0 and 100 percent full, and 100 exactly when no child
      space is left. */
  lemma ContainerFullExactly(b: Block, children: set<Block>)
    requires b.Valid() && forall c :: c in children ==> c.Valid() && b.ContainsOrEquals(c)
    ensures ContainerUtilization(b, children) <= 100
    ensures ContainerUtilization(b, children) == 100 <==> AvailableSpace(b, children) == {}
  {
    var space := Space(children);
    SpaceInside(b, children);
    RangeSize(b);
    SubsetSize(space, Range(b));
    PercentFull(|space|, b.Size());
    if Range(b) - space == {} {
      assert Range(b) == space + (Range(b) - space);
    }
  }

  // ---------------------------------------------------------------- prefixes that hold addresses

  /** The two edge addresses are not counted for IPv4 non-pools shorter than /31. */
  function CountedSize(p: Prefix): int
    requires p.Valid()
  {
    if p.block.family == V4 && p.block.len < 31 && !p.isPool then p.block.Size() - 2 else p.block.Size()
  }

  lemma CountedSizePositive(p: Prefix)
    requires p.Valid()
    ensures CountedSize(p) > 0
  {
    if p.block.family == V4 && p.block.len < 31 {
      SizeAtLeast4(p.block);
    }
  }

  lemma SizeAtLeast4(b: Block)
    requires b.Valid() && b.len + 2 <= Width(b.family)
    ensures b.Size() >= 4
  {
    Pow2Add(2, Width(b.family) - b.len - 2);
    assert Pow2(2) == 4 * Pow2(0);
    MulMono(1, Pow2(Width(b.family) - b.len - 2), 4);
  }

  function HostUtilization(p: Prefix, t: Table): nat
    requires p.Valid() && CountedSize(p) > 0
  {
    Percent(|ChildIps(p, t)|, CountedSize(p))
  }

  /** The percentage is the floor of the exact one, which leaves the edge addresses out for IPv4 non-pools shorter
      than /31. */
  lemma HostFloor(p: Prefix, t: Table)
    requires p.Valid()
    ensures CountedSize(p) > 0
    ensures var size := if p.block.family == V4 && p.block.len < 31 && !p.isPool then p.block.Size() - 2
                        else p.block.Size();
            var u := HostUtilization(p, t);
            u * size <= 100 * |ChildIps(p, t)| < (u + 1) * size
  {
    CountedSizePositive(p);
  }

  ghost predicate DistinctHosts(p: Prefix, t: Table)
    requires p.Valid()
  {
    forall i, j :: i in ChildIps(p, t) && j in ChildIps(p, t) && t[i].host == t[j].host ==> i == j
  }

  ghost predicate EdgesFree(p: Prefix, t: Table)
    requires p.Valid()
  {
    p.isPool || (p.block.First() !in ChildHosts(p, t) && p.block.Last() !in ChildHosts(p, t))
  }

  /** For every table of distinct hosts off the edges, 100 percent means nothing is available. */
  ghost predicate FullMeansNoneAvailable(p: Prefix)
    requires p.Valid() && CountedSize(p) > 0
  {
    forall t: Table :: DistinctHosts(p, t) && EdgesFree(p, t) ==>
      (HostUtilization(p, t) == 100 <==> Available(p, t) == {})
  }

  function HostsOf(pks: set<nat>, t: Table): set<nat>
    requires pks <= t.Keys
  {
    set pk | pk in pks :: t[pk].host
  }

  lemma {:induction false} DistinctCount(pks: set<nat>, t: Table)
    requires pks <= t.Keys && forall i, j :: i in pks && j in pks && t[i].host == t[j].host ==> i == j
    ensures |HostsOf(pks, t)| == |pks|
    decreases pks
  {
    if pks == {} {
      assert HostsOf(pks, t) == {};
    } else {
      var pk :| pk in pks;
      DistinctCount(pks - {pk}, t);
      assert HostsOf(pks, t) == HostsOf(pks - {pk}, t) + {t[pk].host};
    }
  }

  lemma CountDistinct(p: Prefix, t: Table)
    requires p.Valid() && DistinctHosts(p, t)
    ensures |ChildHosts(p, t)| == |ChildIps(p, t)|
  {
    DistinctCount(ChildIps(p, t), t);
    assert ChildHosts(p, t) == HostsOf(ChildIps(p, t), t);
  }

  lemma ChildHostsUsable(p: Prefix, t: Table)
    requires p.Valid() && EdgesFree(p, t)
    ensures ChildHosts(p, t) <= Usable(p)
  {
    forall h | h in ChildHosts(p, t) ensures h in Range(p.block) {
      var pk :| pk in ChildIps(p, t) && t[pk].host == h;
      HostInRange(p, t[pk]);
    }
  }

  lemma UsableSize(p: Prefix)
    requires p.Valid() && !p.isPool && p.block.Size() >= 2
    ensures |Usable(p)| == p.block.Size() - 2
  {
    RangeSize(p.block);
    var first, last := p.block.First(), p.block.Last();
    assert p.block.Has(first) && p.block.Has(last);
    assert first in Range(p.block) && last in Range(p.block);
    assert Usable(p) == Range(p.block) - {first} - {last};
  }

  lemma CountedIsUsable(p: Prefix)
    requires p.Valid() && (p.isPool || (p.block.family == V4 && p.block.len < 31))
    ensures CountedSize(p) == |Usable(p)|
  {
    if p.isPool {
      RangeSize(p.block);
    } else {
      SizeAtLeast4(p.block);
      UsableSize(p);
    }
  }

  lemma MeaningfulPercentage(p: Prefix, t: Table)
    requires p.Valid() && CountedSize(p) > 0 && (p.isPool || (p.block.family == V4 && p.block.len < 31))
    requires DistinctHosts(p, t) && EdgesFree(p, t)
    ensures HostUtilization(p, t) == 100 <==> Available(p, t) == {}
  {
    HostsFill(p, t);
    PercentFull(|ChildIps(p, t)|, CountedSize(p));
  }

  lemma HostsFill(p: Prefix, t: Table)
    requires p.Valid() && (p.isPool || (p.block.family == V4 && p.block.len < 31))
    requires DistinctHosts(p, t) && EdgesFree(p, t)
    ensures |ChildIps(p, t)| <= CountedSize(p)
    ensures |ChildIps(p, t)| == CountedSize(p) <==> Available(p, t) == {}
  {
    CountDistinct(p, t);
    ChildHostsUsable(p, t);
    CountedIsUsable(p);
    SubsetSize(ChildHosts(p, t), Usable(p));
    NoneLeft(Usable(p), ChildHosts(p, t));
  }

  lemma NoneLeft(all: set<nat>, taken: set<nat>)
    requires taken <= all
    ensures all - taken == {} <==> taken == all
  {
    if all - taken == {} {
      assert all == taken + (all - taken);
    }
  }

  /** A table in which every usable address of the prefix is taken. */
  function Crowded(p: Prefix): Table
    requires p.Valid()
  {
    map x | x in Usable(p) :: Address(p.vrf, p.block.family, x, p.block.len)
  }

  lemma CrowdedHosts(p: Prefix)
    requires p.Valid() && p.block.len < Width(p.block.family)
    ensures ChildIps(p, Crowded(p)) == Usable(p) && ChildHosts(p, Crowded(p)) == Usable(p)
    ensures DistinctHosts(p, Crowded(p)) && Available(p, Crowded(p)) == {}
  {
    forall x | x in Usable(p) ensures HostIn(Crowded(p)[x], p.block) {
      HostInRange(p, Crowded(p)[x]);
    }
    assert ChildIps(p, Crowded(p)) == Usable(p);
    forall x | x in Usable(p) ensures x in ChildHosts(p, Crowded(p)) {
      assert x in ChildIps(p, Crowded(p)) && Crowded(p)[x].host == x;
    }
  }

  lemma EmptyTable(p: Prefix)
    requires p.Valid() && CountedSize(p) > 0
    ensures DistinctHosts(p, map[]) && EdgesFree(p, map[]) && HostUtilization(p, map[]) == 0
    ensures Available(p, map[]) == Usable(p)
  {
    assert ChildIps(p, map[]) == {};
    assert ChildHosts(p, map[]) == {};
    DivRange(0, CountedSize(p), 0);
  }

  lemma TinyNonPool(p: Prefix)
    requires p.Valid() && CountedSize(p) > 0 && !p.isPool && p.block.len + 1 >= Width(p.block.family)
    ensures !FullMeansNoneAvailable(p)
  {
    EmptyTable(p);
    assert Pow2(1) == 2 * Pow2(0);
    assert p.block.Size() <= 2;
    forall x ensures x !in Usable(p) {
      assert p.block.Has(x) ==> x == p.block.First() || x == p.block.Last();
    }
    assert Available(p, map[]) == {};
  }

  lemma UncountedEdges(p: Prefix)
    requires p.Valid() && CountedSize(p) > 0 && !p.isPool && p.block.family == V6 && p.block.len + 2 <= Width(V6)
    ensures !FullMeansNoneAvailable(p)
  {
    var t := Crowded(p);
    SizeAtLeast4(p.block);
    CrowdedHosts(p);
    UsableSize(p);
    assert EdgesFree(p, t);
    PercentFull(|ChildIps(p, t)|, CountedSize(p));
  }

  /** "100 percent" means "no address available" exactly for pools and for IPv4 prefixes shorter
      than /31: elsewhere the edge addresses are withheld but still counted. */
  lemma FullExactlyWhen(p: Prefix)
    requires p.Valid()
    ensures CountedSize(p) > 0
    ensures FullMeansNoneAvailable(p) <==> p.isPool || (p.block.family == V4 && p.block.len < 31)
  {
    CountedSizePositive(p);
    if p.isPool || (p.block.family == V4 && p.block.len < 31) {
      forall t: Table | DistinctHosts(p, t) && EdgesFree(p, t)
        ensures HostUtilization(p, t) == 100 <==> Available(p, t) == {}
      {
        MeaningfulPercentage(p, t);
      }
    } else if p.block.len + 1 >= Width(p.block.family) {
      TinyNonPool(p);
    } else {
      UncountedEdges(p);
    }
  }
}
