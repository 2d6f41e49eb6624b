/** Stored prefixes: validation refuses single hosts and, where a routing table asks for it, duplicates. */
module Prefixes {
  import opened Wrappers
  import opened Cidr
  import opened IpAllocation

  type PrefixTable = map<nat, Prefix>

  datatype Outcome = Stored(pk: nat) | HostMask | Duplicate(pk: nat)

  predicate SingleHost(b: Block) { b.len == Width(b.family) }

  /** What validation and normalisation leave in the table. */
  ghost predicate AllStored(t: PrefixTable) {
    forall pk :: pk in t ==> t[pk].Valid() && !SingleHost(t[pk].block)
  }

  /** Another prefix of the routing table, written the same way. */
  predicate SameAs(t: PrefixTable, pk: nat, p: Prefix, other: nat) {
    other in t && other != pk && t[other].vrf == p.vrf && t[other].block == p.block
  }

  /** The prefixes of one routing table are pairwise different. */
  ghost predicate Different(t: PrefixTable, vrf: Option<nat>) {
    forall i, j :: i in t && j in t && i != j && t[i].vrf == vrf && t[j].vrf == vrf ==> t[i].block != t[j].block
  }

  /** The prefix as it is stored. */
  function Normal(p: Prefix): Prefix
    requires p.block.Valid()
  {
    p.(block := p.block.Cidr())
  }

  /** No other prefix of the routing table of pk is the same block. */
  ghost predicate Alone(t: PrefixTable, pk: nat) {
    pk in t && forall other :: !SameAs(t, pk, t[pk], other)
  }

  lemma NormalStays(p: Prefix)
    requires p.block.Valid() && !SingleHost(p.block)
    ensures Normal(p).Valid() && !SingleHost(Normal(p).block)
  {
    CidrSameAddresses(p.block);
  }

  /** Validation finds no other prefix of the routing table written the same way. */
  ghost predicate Passes(t: PrefixTable, pk: nat, p: Prefix) {
    !SingleHost(p.block) && forall other :: !SameAs(t, pk, p, other)
  }

  /** Validation keeps a prefix alone in its routing table, whatever is stored already, exactly when the prefix is given
      without host bits: it compares what was given, and what was given is not what is stored. */
  lemma AcceptedAloneExactly(pk: nat, p: Prefix)
    requires p.block.Valid() && !SingleHost(p.block)
    ensures (forall t: PrefixTable :: AllStored(t) && Passes(t, pk, p) ==> Alone(t[pk := Normal(p)], pk)) <==>
            p.block == p.block.Cidr()
  {
    if p.block == p.block.Cidr() {
      forall t: PrefixTable | AllStored(t) && Passes(t, pk, p) ensures Alone(t[pk := Normal(p)], pk) {
        var t' := t[pk := Normal(p)];
        forall other ensures !SameAs(t', pk, Normal(p), other) {
          assert !SameAs(t, pk, p, other);
        }
      }
    } else {
      var t: PrefixTable := map[pk + 1 := Normal(p)];
      NormalStays(p);
      assert AllStored(t) && Passes(t, pk, p);
      assert SameAs(t[pk := Normal(p)], pk, Normal(p), pk + 1);
    }
  }

  /** Two spellings of one prefix are both accepted, and stored as the same block. */
  lemma TwoSpellings()
    ensures var spelled := Prefix(Block(V4, 167772161, 24), None, false);
            var t: PrefixTable := map[1 := Prefix(Block(V4, 167772160, 24), None, false)];
            spelled.block.Valid() && (forall other :: !SameAs(t, 2, spelled, other)) && SameAs(t, 2, Normal(spelled), 1)
  {
    var spelled := Prefix(Block(V4, 167772161, 24), None, false);
    Pow2Of8();
    assert spelled.block.Size() == 256;
    DivRange(167772161, 256, 655360);
    assert spelled.block.Cidr() == Block(V4, 167772160, 24);
  }

  lemma Pow2Of8()
    ensures Pow2(8) == 256 && Pow2(32) == 4294967296
  {
    assert Pow2(4) == 16;
    Pow2Add(4, 4);
    Pow2Add(8, 8);
    Pow2Add(16, 16);
  }

  /** Neither a /32 of IPv4 nor a /128 of IPv6; and, if the routing table must stay unique, written like no other prefix
      in it. */
  ghost predicate MayStore(t: PrefixTable, pk: nat, p: Prefix, enforce: bool) {
    && !(p.block.family == V4 && p.block.len == 32) && !(p.block.family == V6 && p.block.len == 128)
    && (enforce ==>
          forall other :: other in t && other != pk && t[other].vrf == p.vrf ==> t[other].block != p.block)
  }

  lemma MayStoreExactly(t: PrefixTable, pk: nat, p: Prefix, enforce: bool)
    ensures MayStore(t, pk, p, enforce) <==>
            !SingleHost(p.block) && (!enforce || forall other :: !SameAs(t, pk, p, other))
  {
    if forall other :: !SameAs(t, pk, p, other) {
      forall other | other in t && other != pk && t[other].vrf == p.vrf ensures t[other].block != p.block {
        assert !SameAs(t, pk, p, other);
      }
    }
  }

  class PrefixStore {
    var rows: PrefixTable
    var nextPk: nat

    ghost predicate Fresh()
      reads this
    {
      AllStored(rows) && forall pk :: pk in rows ==> pk < nextPk
    }

    constructor ()
      ensures rows == map[] && nextPk == 0 && Fresh()
    {
      rows, nextPk := map[], 0;
    }

    /** A prefix of the routing table that is written the same way, if there is one. */
    method FindDuplicate(pk: nat, p: Prefix) returns (r: Option<nat>)
      ensures r.None? <==> forall other :: !SameAs(rows, pk, p, other)
      ensures r.Some? ==> SameAs(rows, pk, p, r.value)
    {
      var todo := rows.Keys;
      while todo != {}
        invariant todo <= rows.Keys
        invariant forall other :: other in rows && other !in todo ==> !SameAs(rows, pk, p, other)
        decreases todo
      {
        var other :| other in todo;
        if SameAs(rows, pk, p, other) {
          return Some(other);
        }
        todo := todo - {other};
      }
      return None;
    }

    /** clean then save, of a new row (None) or an existing one; `enforce` says whether the routing table must stay
        unique.  A rejected row changes nothing. */
    method Store(existing: Option<nat>, p: Prefix, enforce: bool) returns (r: Outcome)
      requires Fresh() && p.block.Valid() && (existing.Some? ==> existing.value in rows)
      modifies this
      ensures Fresh()
      ensures var pk := if existing.Some? then existing.value else old(nextPk);
              && (r.HostMask? <==> SingleHost(p.block))
              && (r.Stored? <==> !SingleHost(p.block) && (!enforce || forall other :: !SameAs(old(rows), pk, p, other)))
              && (r.Stored? ==> r.pk == pk)
              && (r.Stored? <==> MayStore(old(rows), pk, p, enforce))
              && (r.Stored? ==> pk in rows && rows[pk] == Prefix(p.block.Cidr(), p.vrf, p.isPool))
              && rows == (if r.Stored? then old(rows)[pk := Normal(p)] else old(rows))
              && nextPk == if r.Stored? && existing.None? then old(nextPk) + 1 else old(nextPk)
    {
      MayStoreExactly(rows, if existing.Some? then existing.value else nextPk, p, enforce);
      if SingleHost(p.block) {
        return HostMask;
      }
      var pk := if existing.Some? then existing.value else nextPk;
      if enforce {
        var duplicate := FindDuplicate(pk, p);
        if duplicate.Some? {
          return Duplicate(duplicate.value);
        }
      }
      NormalStays(p);
      rows := rows[pk := Normal(p)];
      nextPk := if existing.Some? then nextPk else nextPk + 1;
      return Stored(pk);
    }

    /** One operation; a change of a row that is gone does nothing. */
    method Perform(op: Op)
      requires Fresh() && (op.Put? ==> op.p.block.Valid())
      modifies this
      ensures Fresh() && (rows, nextPk) == Performed(old(rows), old(nextPk), op)
      ensures forall vrf :: Different(old(rows), vrf) && CarefulWith([op], vrf) ==> Different(rows, vrf)
    {
      match op {
        case Put(existing, p, enforce) =>
          if existing.None? || existing.value in rows {
            ghost var before := rows;
            var r := Store(existing, p, enforce);
            forall vrf | Different(before, vrf) && CarefulWith([op], vrf)
              ensures Different(rows, vrf)
            {
              assert op in [op];
              if r.Stored? {
                StoredDifferent(before, r.pk, p, vrf);
              }
            }
          }
        case Remove(pk) =>
          Delete(pk);
      }
    }

    method Delete(pk: nat)
      requires Fresh()
      modifies this
      ensures Fresh() && rows == old(rows) - {pk} && nextPk == old(nextPk)
    {
      rows := rows - {pk};
    }
  }

  /** The rows, and the next key, after one operation: what may not be stored is not, and a change of a row that is gone
      does nothing. */
  ghost function Performed(t: PrefixTable, next: nat, op: Op): (PrefixTable, nat)
    requires op.Put? ==> op.p.block.Valid()
  {
    match op
    case Put(existing, p, enforce) =>
      var pk := if existing.Some? then existing.value else next;
      if (existing.Some? && pk !in t) || !MayStore(t, pk, p, enforce) then (t, next)
      else (t[pk := Normal(p)], if existing.Some? then next else next + 1)
    case Remove(pk) => (t - {pk}, next)
  }

  ghost function RunOf(ops: seq<Op>): (PrefixTable, nat)
    requires forall op :: op in ops && op.Put? ==> op.p.block.Valid()
    decreases |ops|
  {
    if ops == [] then (map[], 0)
    else
      var before := RunOf(ops[..|ops| - 1]);
      Performed(before.0, before.1, ops[|ops| - 1])
  }

  datatype Op = Put(existing: Option<nat>, p: Prefix, enforce: bool) | Remove(pk: nat)

  /** Every prefix stored into the routing table is validated for uniqueness, and given without host bits. */
  ghost predicate CarefulWith(ops: seq<Op>, vrf: Option<nat>)
    requires forall op :: op in ops && op.Put? ==> op.p.block.Valid()
  {
    forall op :: op in ops && op.Put? && op.p.vrf == vrf ==> op.enforce && op.p.block == op.p.block.Cidr()
  }

  lemma StoredDifferent(t: PrefixTable, pk: nat, p: Prefix, vrf: Option<nat>)
    requires Different(t, vrf) && p.block.Valid()
    requires p.vrf == vrf ==> Passes(t, pk, p) && p.block == p.block.Cidr()
    ensures Different(t[pk := Normal(p)], vrf)
  {
    var t' := t[pk := Normal(p)];
    forall i, j | i in t' && j in t' && i != j && t'[i].vrf == vrf && t'[j].vrf == vrf
      ensures t'[i].block != t'[j].block
    {
      if i == pk {
        assert !SameAs(t, pk, p, j);
      } else if j == pk {
        assert !SameAs(t, pk, p, i);
      }
    }
  }

  /** After any run of creations, changes and deletions, recording an available address of a stored prefix takes exactly
      that address away; and the prefixes of a routing table are pairwise different if every prefix stored into it was
      validated for uniqueness and given without host bits. */
  method RunAll(ops: seq<Op>) returns (store: PrefixStore)
    requires forall op :: op in ops && op.Put? ==> op.p.block.Valid()
    ensures fresh(store) && store.Fresh() && store.rows == RunOf(ops).0
    ensures forall vrf :: CarefulWith(ops, vrf) ==> Different(store.rows, vrf)
    ensures forall pk, t: Table, i: nat, x :: pk in store.rows && i !in t && x in Available(store.rows[pk], t) ==>
              Available(store.rows[pk], t[i := Recorded(store.rows[pk], x)]) == Available(store.rows[pk], t) - {x}
  {
    store := new PrefixStore();
    var n := 0;
    while n < |ops|
      invariant 0 <= n <= |ops| && fresh(store) && store.Fresh() && (store.rows, store.nextPk) == RunOf(ops[..n])
      invariant forall vrf :: CarefulWith(ops, vrf) ==> Different(store.rows, vrf)
    {
      assert ops[..n + 1][..n] == ops[..n];
      store.Perform(ops[n]);
      forall vrf | CarefulWith(ops, vrf) ensures Different(store.rows, vrf) {
        assert ops[n] in ops;
      }
      n := n + 1;
    }
    assert ops[..n] == ops;
    StoredPrefixesHandOut(store.rows);
  }

  /** The row of an address of p. */
  function Recorded(p: Prefix, x: nat): Address {
    Address(p.vrf, p.block.family, x, p.block.len)
  }

  lemma StoredPrefixesHandOut(rows: PrefixTable)
    requires AllStored(rows)
    ensures forall pk, t: Table, i: nat, x :: pk in rows && i !in t && x in Available(rows[pk], t) ==>
              Available(rows[pk], t[i := Recorded(rows[pk], x)]) == Available(rows[pk], t) - {x}
  {
    forall pk, t: Table, i: nat, x | pk in rows && i !in t && x in Available(rows[pk], t)
      ensures Available(rows[pk], t[i := Recorded(rows[pk], x)]) == Available(rows[pk], t) - {x}
    {
      RecordingTakesOne(rows[pk], t, i, x);
    }
  }
}
