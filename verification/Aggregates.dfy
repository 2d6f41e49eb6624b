/** Top-level address aggregates, validated by clean and stored by save: they never overlap. */
module Aggregates {
  import opened Wrappers
  import opened Cidr

  datatype Aggregate = Aggregate(family: int, prefix: Block)

  type Table = map<nat, Aggregate>

  function Version(f: Family): int { if f == V4 then 4 else 6 }

  datatype Outcome = Saved(pk: nat) | Covered(pk: nat, other: nat) | Covers(pk: nat, other: nat)

  /** Stored prefixes are normalised and carry their own family. */
  ghost predicate Valid(t: Table) {
    forall pk :: pk in t ==>
      t[pk].prefix.Valid() && t[pk].prefix == t[pk].prefix.Cidr() && t[pk].family == Version(t[pk].prefix.family)
  }

  ghost predicate Disjoint(t: Table)
    requires Valid(t)
  {
    forall i, j :: i in t && j in t && i != j ==> !t[i].prefix.Overlaps(t[j].prefix)
  }

  /** The aggregates other than pk that overlap the block. */
  ghost predicate Conflict(t: Table, pk: nat, b: Block, other: nat)
    requires Valid(t) && b.Valid()
  {
    other in t && other != pk && t[other].prefix.Overlaps(b)
  }

  lemma OverlapSameAddresses(a: Block, b: Block)
    requires a.Valid() && b.Valid()
    ensures b.Cidr().Valid() && (a.Overlaps(b) <==> a.Overlaps(b.Cidr()))
  {
    CidrSameAddresses(b);
    assert forall x: nat :: b.Has(x) <==> b.Cidr().Has(x);
  }

  ghost predicate Rejects(t: Table, pk: nat, cidr: Block, other: nat)
    requires Valid(t) && cidr.Valid()
  {
    other in t && other != pk && (t[other].prefix.ContainsOrEquals(cidr) || t[other].prefix.ContainedIn(cidr))
  }

  /** The two containment tests against the normalised prefix find exactly the overlaps. */
  lemma RejectsExactlyConflicts(t: Table, pk: nat, prefix: Block)
    requires Valid(t) && prefix.Valid()
    ensures prefix.Cidr().Valid()
    ensures forall other :: Rejects(t, pk, prefix.Cidr(), other) <==> Conflict(t, pk, prefix, other)
  {
    CidrSameAddresses(prefix);
    forall other | other in t && other != pk
      ensures Rejects(t, pk, prefix.Cidr(), other) <==> Conflict(t, pk, prefix, other)
    {
      OverlapSameAddresses(t[other].prefix, prefix);
      OverlapMeansNested(t[other].prefix, prefix.Cidr());
    }
  }

  lemma CoversAll(a: Block, prefix: Block)
    requires a.Valid() && prefix.Valid() && prefix.Cidr().Valid() && a.ContainsOrEquals(prefix.Cidr())
    ensures forall x: nat :: prefix.Has(x) ==> a.Has(x)
  {
    CidrSameAddresses(prefix);
    ContainsMeansInclusion(a, prefix.Cidr());
    assert forall x: nat :: prefix.Has(x) <==> prefix.Cidr().Has(x);
  }

  lemma CoveredByAll(a: Block, prefix: Block)
    requires a.Valid() && prefix.Valid() && prefix.Cidr().Valid() && a.ContainedIn(prefix.Cidr())
    ensures forall x: nat :: a.Has(x) ==> prefix.Has(x)
  {
    CidrSameAddresses(prefix);
    ContainsMeansInclusion(prefix.Cidr(), a);
    assert forall x: nat :: prefix.Has(x) <==> prefix.Cidr().Has(x);
  }

  function Saving(t: Table, pk: nat, prefix: Block): Table
    requires prefix.Valid()
  {
    t[pk := Aggregate(Version(prefix.family), prefix.Cidr())]
  }

  lemma SavingKeepsValid(t: Table, pk: nat, prefix: Block)
    requires Valid(t) && prefix.Valid()
    ensures Valid(Saving(t, pk, prefix))
  {
    CidrSameAddresses(prefix);
  }

  lemma SavingKeepsDisjoint(t: Table, pk: nat, prefix: Block)
    requires Valid(t) && Disjoint(t) && prefix.Valid()
    requires forall other :: !Conflict(t, pk, prefix, other)
    ensures Valid(Saving(t, pk, prefix)) && Disjoint(Saving(t, pk, prefix))
  {
    SavingKeepsValid(t, pk, prefix);
    var t' := Saving(t, pk, prefix);
    forall i, j | i in t' && j in t' && i != j ensures !t'[i].prefix.Overlaps(t'[j].prefix) {
      var other := if i == pk then j else i;
      if i == pk || j == pk {
        assert !Conflict(t, pk, prefix, other);
        OverlapSameAddresses(t[other].prefix, prefix);
      }
    }
  }

  class AggregateTable {
    var rows: Table
    var nextPk: nat

    ghost predicate Fresh()
      reads this
    {
      Valid(rows) && forall pk :: pk in rows ==> pk < nextPk
    }

    constructor ()
      ensures rows == map[] && nextPk == 0 && Fresh()
    {
      rows, nextPk := map[], 0;
    }

    /** clean: both directions of containment are checked against every other row. */
    method Clean(pk: nat, prefix: Block) returns (r: Outcome, cidr: Block)
      requires Valid(rows) && prefix.Valid()
      ensures cidr == prefix.Cidr() && cidr.Valid()
      ensures r.pk == pk
      ensures r.Saved? <==> forall other :: !Conflict(rows, pk, prefix, other)
      ensures !r.Saved? ==> Conflict(rows, pk, prefix, r.other)
      ensures r.Covered? ==> forall x: nat :: prefix.Has(x) ==> rows[r.other].prefix.Has(x)
      ensures r.Covers? ==> forall x: nat :: rows[r.other].prefix.Has(x) ==> prefix.Has(x)
    {
      RejectsExactlyConflicts(rows, pk, prefix);
      cidr := prefix.Cidr();
      var covering := set other | other in rows && other != pk && rows[other].prefix.ContainsOrEquals(cidr);
      if covering != {} {
        var other :| other in covering;
        assert Rejects(rows, pk, cidr, other);
        CoversAll(rows[other].prefix, prefix);
        return Covered(pk, other), cidr;
      }
      var covered := set other | other in rows && other != pk && rows[other].prefix.ContainedIn(cidr);
      if covered != {} {
        var other :| other in covered;
        assert Rejects(rows, pk, cidr, other);
        CoveredByAll(rows[other].prefix, prefix);
        return Covers(pk, other), cidr;
      }
      forall other ensures !Rejects(rows, pk, cidr, other) {
        assert other !in covering && other !in covered;
      }
      return Saved(pk), cidr;
    }

    /** clean then save, of a new row (None) or an existing one.  A rejected row changes nothing. */
    method Store(existing: Option<nat>, prefix: Block) returns (r: Outcome)
      requires Fresh() && Disjoint(rows) && prefix.Valid() && (existing.Some? ==> existing.value in rows)
      modifies this
      ensures Fresh() && Disjoint(rows)
      ensures var pk := if existing.Some? then existing.value else old(nextPk);
              && r.pk == pk
              && (r.Saved? <==> forall other :: !Conflict(old(rows), pk, prefix, other))
              && rows == (if r.Saved? then Saving(old(rows), pk, prefix) else old(rows))
              && (r.Saved? ==> rows[pk] == Aggregate(if prefix.family == V4 then 4 else 6, prefix.Cidr()))
      ensures nextPk == if r.Saved? && existing.None? then old(nextPk) + 1 else old(nextPk)
    {
      var pk := if existing.Some? then existing.value else nextPk;
      var cidr;
      r, cidr := Clean(pk, prefix);
      if r.Saved? {
        SavingKeepsDisjoint(rows, pk, prefix);
        rows := rows[pk := Aggregate(Version(cidr.family), cidr)];
        if existing.None? {
          nextPk := nextPk + 1;
        }
      }
    }

    /** One operation. */
    method Perform(op: Op)
      requires Fresh() && Disjoint(rows) && WellFormed(op)
      modifies this
      ensures Fresh() && Disjoint(rows) && (rows, nextPk) == Performed(old(rows), old(nextPk), op)
    {
      match op {
        case Create(prefix) =>
          var _ := Store(None, prefix);
        case Update(pk, prefix) =>
          if pk in rows {
            var _ := Store(Some(pk), prefix);
          }
        case Remove(pk) =>
          Delete(pk);
      }
    }

    method Delete(pk: nat)
      requires Fresh() && Disjoint(rows)
      modifies this
      ensures Fresh() && Disjoint(rows) && rows == old(rows) - {pk} && nextPk == old(nextPk)
    {
      rows := rows - {pk};
    }
  }

  // ---------------------------------------------------------------- runs

  datatype Op = Create(prefix: Block) | Update(pk: nat, prefix: Block) | Remove(pk: nat)

  predicate WellFormed(op: Op) { !op.Remove? ==> op.prefix.Valid() }

  /** The rows, and the next key, after one operation: what overlaps another row is not saved, and a change of a row
      that is gone does nothing. */
  ghost function Performed(t: Table, next: nat, op: Op): (r: (Table, nat))
    requires Valid(t) && WellFormed(op)
    ensures Valid(r.0)
  {
    match op
    case Create(prefix) =>
      SavingKeepsValid(t, next, prefix);
      if exists other :: Conflict(t, next, prefix, other) then (t, next) else (Saving(t, next, prefix), next + 1)
    case Update(pk, prefix) =>
      SavingKeepsValid(t, pk, prefix);
      if pk !in t || exists other :: Conflict(t, pk, prefix, other) then (t, next) else (Saving(t, pk, prefix), next)
    case Remove(pk) => (t - {pk}, next)
  }

  ghost function RunOf(ops: seq<Op>): (r: (Table, nat))
    requires forall op :: op in ops ==> WellFormed(op)
    ensures Valid(r.0)
    decreases |ops|
  {
    if ops == [] then (map[], 0)
    else
      var before := RunOf(ops[..|ops| - 1]);
      Performed(before.0, before.1, ops[|ops| - 1])
  }

  /** Every address belongs to at most one aggregate, whatever is created, changed or deleted. */
  method RunAll(ops: seq<Op>) returns (table: AggregateTable)
    requires forall op :: op in ops ==> WellFormed(op)
    ensures table.Fresh() && Disjoint(table.rows) && table.rows == RunOf(ops).0
    ensures forall i, j, x: nat ::
              (i in table.rows && j in table.rows && table.rows[i].family == table.rows[j].family &&
               table.rows[i].prefix.Has(x) && table.rows[j].prefix.Has(x)) ==> i == j
  {
    table := new AggregateTable();
    var n := 0;
    while n < |ops|
      invariant 0 <= n <= |ops| && fresh(table)
      invariant table.Fresh() && Disjoint(table.rows) && (table.rows, table.nextPk) == RunOf(ops[..n])
      decreases |ops| - n
    {
      assert ops[n] in ops && ops[..n + 1][..n] == ops[..n];
      table.Perform(ops[n]);
      n := n + 1;
    }
    assert ops[..n] == ops;
    forall i, j, x: nat |
      i in table.rows && j in table.rows && table.rows[i].family == table.rows[j].family &&
      table.rows[i].prefix.Has(x) && table.rows[j].prefix.Has(x)
      ensures i == j
    {
      if i != j {
        assert table.rows[i].prefix.Overlaps(table.rows[j].prefix);
      }
    }
  }
}
