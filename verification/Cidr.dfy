/** CIDR blocks (section 3.1 of RFC 4632) and the containment tests the address tables use. */
module Cidr {

  datatype Family = V4 | V6

  function Width(f: Family): nat { if f == V4 then 32 else 128 }

  function Pow2(n: nat): (r: nat)
    ensures r > 0
  {
    if n == 0 then 1 else 2 * Pow2(n - 1)
  }

  function Quotient(x: nat, p: nat): (q: nat)
    requires p > 0
    ensures q * p <= x < q * p + p
  {
    x / p
  }

  /** An address with a mask length; host bits may be set until the block is normalised. */
  datatype Block = Block(family: Family, address: nat, len: nat) {
    predicate Valid() { len <= Width(family) && address < Pow2(Width(family)) }

    function Size(): (r: nat)
      requires Valid()
      ensures r > 0
    {
      Pow2(Width(family) - len)
    }

    /** The leading `len` bits. */
    function Network(): nat
      requires Valid()
    {
      Quotient(address, Size())
    }

    function First(): nat
      requires Valid()
    {
      Network() * Size()
    }

    function Last(): nat
      requires Valid()
    {
      First() + Size() - 1
    }

    /** The block with its host bits cleared. */
    function Cidr(): Block
      requires Valid()
    {
      Block(family, First(), len)
    }

    predicate Has(x: nat)
      requires Valid()
    {
      First() <= x <= Last()
    }

    /** The >>= of the database: b agrees with this block on this block's leading bits. */
    predicate ContainsOrEquals(b: Block)
      requires Valid() && b.Valid()
    {
      family == b.family && len <= b.len && Quotient(b.address, Size()) == Network()
    }

    /** The << of the database, strict containment. */
    predicate ContainedIn(b: Block)
      requires Valid() && b.Valid()
    {
      family == b.family && b.len < len && Quotient(address, b.Size()) == b.Network()
    }

    ghost predicate Overlaps(b: Block)
      requires Valid() && b.Valid()
    {
      family == b.family && exists x :: Has(x) && b.Has(x)
    }
  }

  // ---------------------------------------------------------------- arithmetic

  lemma {:induction false} Pow2Add(m: nat, n: nat)
    ensures Pow2(m + n) == Pow2(m) * Pow2(n)
    decreases m
  {
    if m == 0 {
    } else {
      Pow2Add(m - 1, n);
      assert Pow2(m + n) == 2 * Pow2(m - 1 + n);
    }
  }

  lemma {:induction false} MulStrict(x: nat, y: nat, p: nat)
    ensures x < y ==> x * p + p <= y * p
    decreases y
  {
    if x < y {
      assert y * p == (y - 1) * p + p;
      MulStrict(x, y - 1, p);
    }
  }

  /** x lies in the q-th run of length p exactly when its quotient is q. */
  lemma DivRange(x: nat, p: nat, q: nat)
    requires p > 0
    ensures Quotient(x, p) == q <==> q * p <= x < q * p + p
  {
    MulStrict(Quotient(x, p), q, p);
    MulStrict(q, Quotient(x, p), p);
  }

  lemma HasMeansSameNetwork(b: Block, x: nat)
    requires b.Valid()
    ensures b.Has(x) <==> Quotient(x, b.Size()) == b.Network()
  {
    DivRange(x, b.Size(), b.Network());
  }

  lemma DivDiv(x: nat, p: nat, m: nat)
    requires p > 0 && m > 0
    ensures p * m > 0 && Quotient(x, p * m) == Quotient(Quotient(x, p), m)
  {
    var y := Quotient(x, p);
    var q := Quotient(y, m);
    assert q * (p * m) == (q * m) * p;
    MulMono(q * m, y, p);
    MulMono(y + 1, q * m + m, p);
    assert (q * m + m) * p == q * (p * m) + p * m;
    DivRange(x, p * m, q);
  }

  lemma MulMono(x: nat, y: nat, p: nat)
    requires x <= y
    ensures x * p <= y * p
  {
    MulStrict(x, y, p);
  }

  lemma SizesDivide(a: Block, b: Block)
    requires a.Valid() && b.Valid() && a.family == b.family && a.len <= b.len
    ensures a.Size() == b.Size() * Pow2(b.len - a.len)
  {
    Pow2Add(Width(a.family) - b.len, b.len - a.len);
  }

  lemma BelowPow2(b: Block)
    requires b.Valid()
    ensures b.First() <= b.address <= b.Last() < Pow2(Width(b.family))
  {
    var w := Width(b.family);
    var n := Pow2(b.len);
    Pow2Add(w - b.len, b.len);
    NetworkBound(b.address, b.Size(), n);
  }

  lemma NetworkBound(x: nat, p: nat, n: nat)
    requires p > 0 && x < p * n
    ensures Quotient(x, p) * p + p <= p * n
  {
    MulStrict(Quotient(x, p), n, p);
    MulMono(n, if Quotient(x, p) >= n then Quotient(x, p) else n, p);
  }

  // ---------------------------------------------------------------- containment is about addresses

  lemma CidrSameAddresses(b: Block)
    requires b.Valid()
    ensures b.Cidr().Valid() && b.Cidr().First() == b.First() == b.Cidr().address && b.Cidr().Last() == b.Last()
    ensures b.Cidr().Cidr() == b.Cidr()
  {
    BelowPow2(b);
    DivRange(b.First(), b.Size(), b.Network());
  }

  /** Two blocks of one family, the shorter mask first: the second lies inside the first, or they
      share no address; which of the two is decided by the leading bits alone. */
  lemma NestedOrDisjoint(a: Block, b: Block)
    requires a.Valid() && b.Valid() && a.family == b.family && a.len <= b.len
    ensures a.ContainsOrEquals(b) ==> forall x: nat :: b.Has(x) ==> a.Has(x)
    ensures !a.ContainsOrEquals(b) ==> forall x: nat :: !(a.Has(x) && b.Has(x))
  {
    var m := Pow2(b.len - a.len);
    SizesDivide(a, b);
    forall x: nat | b.Has(x) ensures a.Has(x) <==> a.ContainsOrEquals(b) {
      HasMeansSameNetwork(b, x);
      HasMeansSameNetwork(a, x);
      DivDiv(x, b.Size(), m);
      DivDiv(b.address, b.Size(), m);
    }
  }

  lemma LargerNotIncluded(a: Block, b: Block)
    requires a.Valid() && b.Valid() && a.family == b.family && a.len > b.len
    ensures exists x: nat :: b.Has(x) && !a.Has(x)
  {
    SizesDivide(b, a);
    Pow2Larger(a.len - b.len);
    MulMono(2, Pow2(a.len - b.len), a.Size());
    assert b.Size() >= 2 * a.Size();
    var x := if a.Has(b.First()) then b.Last() else b.First();
    assert b.Has(x) && !a.Has(x);
  }

  /** The database's containment test is inclusion of address ranges. */
  lemma ContainsMeansInclusion(a: Block, b: Block)
    requires a.Valid() && b.Valid()
    ensures a.ContainsOrEquals(b) <==> a.family == b.family && forall x: nat :: b.Has(x) ==> a.Has(x)
  {
    BelowPow2(b);
    assert b.Has(b.address);
    if a.family == b.family {
      if a.len <= b.len {
        NestedOrDisjoint(a, b);
      } else {
        LargerNotIncluded(a, b);
      }
    }
  }

  /** The strict one is strict inclusion. */
  lemma ContainedMeansStrictInclusion(a: Block, b: Block)
    requires a.Valid() && b.Valid()
    ensures a.ContainedIn(b) <==>
            && a.family == b.family && (forall x: nat :: a.Has(x) ==> b.Has(x))
            && exists x: nat :: b.Has(x) && !a.Has(x)
  {
    ContainsMeansInclusion(b, a);
    ContainsMeansInclusion(a, b);
    BelowPow2(a);
    if a.family == b.family && a.len == b.len && b.ContainsOrEquals(a) {
      assert a.ContainsOrEquals(b);
    }
  }

  lemma Pow2Larger(n: nat)
    requires n > 0
    ensures Pow2(n) >= 2
  {
  }

  /** Overlapping blocks are nested one way or the other. */
  lemma OverlapMeansNested(a: Block, b: Block)
    requires a.Valid() && b.Valid()
    ensures a.Overlaps(b) <==> a.ContainsOrEquals(b) || b.ContainsOrEquals(a)
  {
    BelowPow2(a);
    BelowPow2(b);
    if a.family == b.family {
      if a.len <= b.len {
        NestedOrDisjoint(a, b);
        assert b.Has(b.address);
        assert a.ContainsOrEquals(b) ==> a.Has(b.address);
      } else {
        NestedOrDisjoint(b, a);
        assert a.Has(a.address);
        assert b.ContainsOrEquals(a) ==> b.Has(a.address);
      }
    }
  }
}
