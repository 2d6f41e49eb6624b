/** Handing out the addresses of a prefix, and how full a prefix is. */
module IpAllocation {
  import opened Wrappers
  import opened Cidr

  /** A stored prefix: host bits cleared, in one routing table (None is the global one). */
  datatype Prefix = Prefix(block: Block, vrf: Option<nat>, isPool: bool) {
    predicate Valid() { block.Valid() && block == block.Cidr() }
  }

  datatype Address = Address(vrf: Option<nat>, family: Family, host: nat, len: nat)

  type Table = map<nat, Address>

  /** The host alone, as a full-length block, strictly inside the prefix. */
  predicate HostIn(a: Address, b: Block)
    requires b.Valid()
  {
    a.family == b.family && b.len < Width(b.family) && Quotient(a.host, b.Size()) == b.Network()
  }

  function ChildIps(p: Prefix, t: Table): set<nat>
    requires p.Valid()
  {
    set pk | pk in t && t[pk].vrf == p.vrf && HostIn(t[pk], p.block)
  }

  function ChildHosts(p: Prefix, t: Table): set<nat>
    requires p.Valid()
  {
    set pk | pk in ChildIps(p, t) :: t[pk].host
  }

  function Range(b: Block): set<nat>
    requires b.Valid()
  {
    set x: nat | b.First() <= x <= b.Last() && b.Has(x)
  }

  /** The addresses that may be handed out at all. */
  function Usable(p: Prefix): set<nat>
    requires p.Valid()
  {
    if p.isPool then Range(p.block) else Range(p.block) - {p.block.First(), p.block.Last()}
  }

  function Available(p: Prefix, t: Table): set<nat>
    requires p.Valid()
  {
    Usable(p) - ChildHosts(p, t)
  }

  /** An address is available if it lies in the prefix, is no edge of a prefix that is not a pool, and has no row of the
      same routing table and family; a row under a prefix that is a single host does not count. */
  lemma AvailableExactly(p: Prefix, t: Table, x: nat)
    requires p.Valid()
    ensures x in Available(p, t) <==>
            && p.block.First() <= x <= p.block.Last()
            && (p.isPool || (x != p.block.First() && x != p.block.Last()))
            && (p.block.len < Width(p.block.family) ==>
                  forall pk :: pk in t ==> !(t[pk].vrf == p.vrf && t[pk].family == p.block.family && t[pk].host == x))
  {
    forall pk | pk in t && p.block.len < Width(p.block.family) && t[pk].vrf == p.vrf &&
                t[pk].family == p.block.family && t[pk].host == x && x in Range(p.block)
      ensures x in ChildHosts(p, t)
    {
      HostInRange(p, t[pk]);
      assert pk in ChildIps(p, t);
    }
  }

  predicate IsMin(x: nat, s: set<nat>) {
    x in s && forall y :: y in s ==> x <= y
  }

  lemma {:induction false} MinExists(s: set<nat>)
    requires s != {}
    ensures exists x :: IsMin(x, s)
    decreases s
  {
    var x :| x in s;
    if s - {x} == {} {
      assert s == {x};
      assert IsMin(x, s);
    } else {
      MinExists(s - {x});
      var y :| IsMin(y, s - {x});
      var z := if x < y then x else y;
      forall w | w in s ensures z <= w {
        assert w == x || w in s - {x};
      }
      assert IsMin(z, s);
    }
  }

  /** Other rows of the same routing table with the same host. */
  function Duplicates(t: Table, a: Address, pk: nat): set<nat> {
    set i | i in t && i != pk && t[i].vrf == a.vrf && t[i].family == a.family && t[i].host == a.host
  }

  // ---------------------------------------------------------------- recording an address

  lemma HostInRange(p: Prefix, a: Address)
    requires p.Valid()
    ensures HostIn(a, p.block) <==>
            a.family == p.block.family && p.block.len < Width(p.block.family) && a.host in Range(p.block)
  {
    HasMeansSameNetwork(p.block, a.host);
  }

  /** Recording an available address removes exactly that address from what is available, unless the prefix is a single
      host, which validation refuses to store: then it would stay available. */
  lemma RecordingTakesOne(p: Prefix, t: Table, pk: nat, x: nat)
    requires p.Valid() && pk !in t && x in Available(p, t)
    ensures var t' := t[pk := Address(p.vrf, p.block.family, x, p.block.len)];
            Available(p, t') == Available(p, t) - {x} <==> p.block.len < Width(p.block.family)
  {
    var a := Address(p.vrf, p.block.family, x, p.block.len);
    var t' := t[pk := a];
    HostInRange(p, a);
    if p.block.len < Width(p.block.family) {
      assert ChildIps(p, t') == ChildIps(p, t) + {pk};
      assert ChildHosts(p, t') == ChildHosts(p, t) + {x} by {
        forall h ensures h in ChildHosts(p, t') <==> h in ChildHosts(p, t) + {x} {
          if h in ChildHosts(p, t) {
            var i :| i in ChildIps(p, t) && t[i].host == h;
            assert i in ChildIps(p, t') && t'[i].host == h;
          }
          assert pk in ChildIps(p, t') && t'[pk].host == x;
        }
      }
    } else {
      assert ChildHosts(p, t') == {};
      assert ChildHosts(p, t) == {};
    }
  }

  /** An available address never collides with a recorded one, so validation accepts it. */
  lemma AvailableIsUnique(p: Prefix, t: Table, pk: nat, x: nat)
    requires p.Valid() && p.block.len < Width(p.block.family) && x in Available(p, t)
    ensures Duplicates(t, Address(p.vrf, p.block.family, x, p.block.len), pk) == {}
  {
    forall i | i in t && t[i].vrf == p.vrf && t[i].family == p.block.family && t[i].host in Range(p.block)
      ensures t[i].host in ChildHosts(p, t)
    {
      HostInRange(p, t[i]);
      assert i in ChildIps(p, t);
    }
  }

  class AddressTable {
    var rows: Table
    var nextPk: nat

    ghost predicate Fresh()
      reads this
    {
      forall pk :: pk in rows ==> pk < nextPk
    }

    constructor (rows: Table, nextPk: nat)
      requires forall pk :: pk in rows ==> pk < nextPk
      ensures this.rows == rows && Fresh()
    {
      this.rows, this.nextPk := rows, nextPk;
    }

    method GetAvailableIps(p: Prefix) returns (available: set<nat>)
      requires p.Valid()
      ensures available == Available(p, rows)
    {
      var prefix := Range(p.block);
      var childIps := set pk | pk in rows && rows[pk].vrf == p.vrf && HostIn(rows[pk], p.block) :: rows[pk].host;
      assert childIps == ChildHosts(p, rows) by {
        forall h ensures h in childIps <==> h in ChildHosts(p, rows) {
          if h in childIps {
            var pk :| pk in rows && rows[pk].vrf == p.vrf && HostIn(rows[pk], p.block) && rows[pk].host == h;
            assert pk in ChildIps(p, rows);
          }
        }
      }
      available := prefix - childIps;
      if !p.isPool {
        available := available - {p.block.First(), p.block.Last()};
      }
    }

    /** The first available address with the prefix's own mask length, or None. */
    method GetFirstAvailableIp(p: Prefix) returns (r: Option<Block>)
      requires p.Valid()
      ensures r.None? <==> Available(p, rows) == {}
      ensures r.Some? ==> r.value.family == p.block.family && r.value.len == p.block.len &&
                          IsMin(r.value.address, Available(p, rows))
    {
      var available := GetAvailableIps(p);
      if available == {} {
        return None;
      }
      MinExists(available);
      var x :| x in available && forall y :: y in available ==> x <= y;
      return Some(Block(p.block.family, x, p.block.len));
    }

    /** clean then save of a new address; `enforce` says whether the routing table must stay unique. */
    method Record(a: Address, enforce: bool) returns (ok: bool)
      requires Fresh()
      modifies this
      ensures Fresh()
      ensures ok <==> !enforce || Duplicates(old(rows), a, old(nextPk)) == {}
      ensures ok <==> !enforce || forall i :: i in old(rows) && old(rows)[i].vrf == a.vrf ==>
                !(old(rows)[i].family == a.family && old(rows)[i].host == a.host)
      ensures rows == if ok then old(rows)[old(nextPk) := a] else old(rows)
    {
      assert forall i :: i in Duplicates(rows, a, nextPk) <==>
                         i in rows && rows[i].vrf == a.vrf && rows[i].family == a.family && rows[i].host == a.host;
      if enforce && Duplicates(rows, a, nextPk) != {} {
        return false;
      }
      rows := rows[nextPk := a];
      nextPk := nextPk + 1;
      return true;
    }

    /** Take the first available address and record it. */
    method TakeNext(p: Prefix, enforce: bool) returns (r: Option<nat>)
      requires Fresh() && p.Valid() && p.block.len < Width(p.block.family)
      modifies this
      ensures Fresh()
      ensures r.None? <==> old(Available(p, rows)) == {}
      ensures r.None? ==> rows == old(rows)
      ensures r.Some? ==>
                && IsMin(r.value, old(Available(p, rows)))
                && Available(p, rows) == old(Available(p, rows)) - {r.value}
                && old(nextPk) !in old(rows)
                && rows == old(rows)[old(nextPk) := Address(p.vrf, p.block.family, r.value, p.block.len)]
    {
      var next := GetFirstAvailableIp(p);
      if next.None? {
        return None;
      }
      var x := next.value.address;
      AvailableIsUnique(p, rows, nextPk, x);
      RecordingTakesOne(p, rows, nextPk, x);
      var ok := Record(Address(p.vrf, next.value.family, x, next.value.len), enforce);
      return Some(x);
    }

    /** Take addresses until there is none.  They come in strictly increasing order, they are exactly
        those available at the start, validation never refuses one, and no row that was there, nor
        any row of another routing table, is touched. */
    method TakeAll(p: Prefix, enforce: bool) returns (taken: seq<nat>)
      requires Fresh() && p.Valid() && p.block.len < Width(p.block.family)
      modifies this
      ensures Increasing(taken)
      ensures forall x :: x in taken <==> x in old(Available(p, rows))
      ensures |taken| == |old(Available(p, rows))|
      ensures Available(p, rows) == {}
      ensures OnlyAdded(p, old(rows), rows, taken)
    {
      taken := [];
      ghost var start, left := Available(p, rows), Available(p, rows);
      var next := TakeNext(p, enforce);
      while next.Some?
        invariant Fresh() && HandedOut(taken, left, start)
        invariant next.None? ==> left == {} && Available(p, rows) == {} && OnlyAdded(p, old(rows), rows, taken)
        invariant next.Some? ==> IsMin(next.value, left) && Available(p, rows) == left - {next.value} &&
                                 OnlyAdded(p, old(rows), rows, taken + [next.value])
        decreases |left|, next.Some?
      {
        HandOutOne(taken, left, start, next.value);
        taken, left := taken + [next.value], left - {next.value};
        ghost var rows0 := rows;
        next := TakeNext(p, enforce);
        if next.Some? {
          AddedOneMore(p, old(rows), rows0, rows, taken, next.value);
        }
      }
    }
  }

  /** `taken` lists what is no longer among `left`, all of it below everything that is. */
  ghost predicate HandedOut(taken: seq<nat>, left: set<nat>, start: set<nat>) {
    && Increasing(taken) && left <= start && |taken| + |left| == |start|
    && (forall x :: x in taken <==> x in start && x !in left)
    && (forall i, y :: 0 <= i < |taken| && y in left ==> taken[i] < y)
  }

  lemma HandOutOne(taken: seq<nat>, left: set<nat>, start: set<nat>, x: nat)
    requires HandedOut(taken, left, start) && IsMin(x, left)
    ensures HandedOut(taken + [x], left - {x}, start)
  {
    var taken' := taken + [x];
    forall y ensures y in taken' <==> y in start && y !in left - {x} {
      assert y in taken' <==> y in taken || y == x;
    }
  }

  /** The rows of `before` are as they were; the others are recorded addresses of this prefix. */
  ghost predicate OnlyAdded(p: Prefix, before: Table, after: Table, taken: seq<nat>) {
    && (forall pk :: pk in before ==> pk in after && after[pk] == before[pk])
    && (forall pk :: pk in after && pk !in before ==>
          after[pk].vrf == p.vrf && after[pk].family == p.block.family && after[pk].host in taken)
  }

  lemma AddedOneMore(p: Prefix, before: Table, middle: Table, after: Table, taken: seq<nat>, x: nat)
    requires OnlyAdded(p, before, middle, taken)
    requires exists pk: nat :: pk !in middle && after == middle[pk := Address(p.vrf, p.block.family, x, p.block.len)]
    ensures OnlyAdded(p, before, after, taken + [x])
  {
  }

  /** A pool that is a single host, stored without validation, would never be used up: its one address is available
      whatever is recorded. */
  lemma SingleHostPoolNeverUsedUp(p: Prefix, t: Table)
    requires p.Valid() && p.block.len == Width(p.block.family)
    ensures Available(p, t) == if p.isPool then {p.block.address} else {}
  {
    assert p.block.Size() == 1;
    assert ChildHosts(p, t) == {};
    assert p.block.Cidr().address == p.block.First();
    forall x ensures x in Range(p.block) <==> x == p.block.address {
      assert p.block.Has(x) <==> x == p.block.address;
    }
  }
}
