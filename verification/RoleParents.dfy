/** Implicit role parents: the parents a model declares for its roles, recorded on the role and brought up to date
    whenever the object is saved. */
module RoleParents {
  import opened Wrappers

  import opened RoleGraph
  import opened RoleAncestors
  import opened RoleStore

  // ---------------------------------------------------------------- one resync

  /** The parents p of a role after the recorded implicit parents o give way to n. */
  function Synced(p: set<RoleId>, o: set<RoleId>, n: set<RoleId>): set<RoleId> {
    p - (o - n) + (n - o)
  }

  /** Among the old and new implicit parents only the new ones are left, provided none had been taken away by hand;
      everything else stays. */
  lemma SyncedExactly(p: set<RoleId>, o: set<RoleId>, n: set<RoleId>)
    ensures n <= Synced(p, o, n) <==> o * n <= p
    ensures o * n <= p ==> Synced(p, o, n) * (o + n) == n
    ensures Synced(p, o, n) - (o + n) == p - (o + n)
  {
    forall x | n <= Synced(p, o, n) && x in o * n ensures x in p {
      assert x in Synced(p, o, n);
    }
  }

  lemma SyncIsIdempotent(p: set<RoleId>, o: set<RoleId>, n: set<RoleId>)
    ensures Synced(Synced(p, o, n), n, n) == Synced(p, o, n)
  {
  }

  /** Changing the implicit parents and changing them back restores the role's parents exactly when no parent was
      held both by hand and, for a while, implicitly: such a grant is lost. */
  lemma RoundTripExactly(p: set<RoleId>, o: set<RoleId>, n: set<RoleId>)
    ensures Synced(Synced(p, o, n), n, o) == p <==> o - n <= p && (n - o) !! p
  {
    var back := Synced(Synced(p, o, n), n, o);
    if back == p {
      forall x | x in o - n ensures x in p {
        assert x in back;
      }
      forall x | x in n - o ensures x !in p {
        assert x !in back;
      }
    }
  }

  lemma GrantLost(team: RoleId, organization: RoleId)
    requires team != organization
    ensures Synced(Synced({team, organization}, {organization}, {team, organization}), {team, organization},
                   {organization}) == {organization}
  {
  }

  // ---------------------------------------------------------------- the recorded list

  /** A set has one sorted list, so comparing lists compares sets. */
  lemma {:induction false} OneSortedList(a: seq<RoleId>, b: seq<RoleId>)
    requires Increasing(a) && Increasing(b) && Elements(a) == Elements(b)
    ensures a == b
  {
    if a != [] || b != [] {
      SameHead(a, b);
      assert a == [a[0]] + a[1..] && b == [b[0]] + b[1..];
      RestElements(a);
      RestElements(b);
      OneSortedList(a[1..], b[1..]);
    }
  }

  lemma SameHead(a: seq<RoleId>, b: seq<RoleId>)
    requires Increasing(a) && Increasing(b) && Elements(a) == Elements(b) && (a != [] || b != [])
    ensures a != [] && b != [] && a[0] == b[0]
  {
    assert a != [] ==> a[0] in Elements(a);
    assert b != [] ==> b[0] in Elements(b);
    assert a[0] in Elements(b) && b[0] in Elements(a);
  }

  lemma RestElements(a: seq<RoleId>)
    requires Increasing(a) && a != []
    ensures Elements(a[1..]) == Elements(a) - {a[0]} && Increasing(a[1..])
  {
  }

  /** Insert an id in its place. */
  method InsertSorted(list: seq<RoleId>, x: RoleId) returns (r: seq<RoleId>)
    requires Increasing(list) && x !in list
    ensures Increasing(r) && Elements(r) == Elements(list) + {x}
  {
    var i := 0;
    while i < |list| && list[i] < x
      invariant 0 <= i <= |list|
      invariant forall k :: 0 <= k < i ==> list[k] < x
    {
      i := i + 1;
    }
    r := list[..i] + ([x] + list[i..]);
    PlacedSorted(list, i, x);
    PlacedElements(list, i, x);
  }

  lemma PlacedSorted(list: seq<RoleId>, i: nat, x: RoleId)
    requires Increasing(list) && i <= |list| && (forall k :: 0 <= k < i ==> list[k] < x)
    requires i < |list| ==> x < list[i]
    ensures Increasing(list[..i] + ([x] + list[i..]))
  {
    var r := list[..i] + ([x] + list[i..]);
    forall a, b | 0 <= a < b < |r| ensures r[a] < r[b] {
      assert r[a] == if a < i then list[a] else if a == i then x else list[a - 1];
      assert r[b] == if b < i then list[b] else if b == i then x else list[b - 1];
    }
  }

  lemma PlacedElements(list: seq<RoleId>, i: nat, x: RoleId)
    requires i <= |list|
    ensures Elements(list[..i] + ([x] + list[i..])) == Elements(list) + {x}
  {
    assert list == list[..i] + list[i..];
    assert forall y :: y in list <==> y in list[..i] || y in list[i..];
  }

  method SortedList(ids: set<RoleId>) returns (list: seq<RoleId>)
    ensures Increasing(list) && Elements(list) == ids
  {
    list := [];
    var todo := ids;
    while todo != {}
      invariant todo <= ids && Increasing(list) && Elements(list) == ids - todo
      decreases todo
    {
      var x :| x in todo;
      assert x !in Elements(list);
      list := InsertSorted(list, x);
      todo := todo - {x};
    }
  }

  // ---------------------------------------------------------------- the roles of an object

  /** What is recorded for a role; nothing is recorded for a new one. */
  function Recorded(implicit: map<RoleId, seq<RoleId>>, role: RoleId): set<RoleId> {
    if role in implicit then Elements(implicit[role]) else {}
  }

  /** Every recorded parent that still exists is a parent. */
  ghost predicate RecordedKept(implicit: map<RoleId, seq<RoleId>>, h: Hierarchy) {
    forall role :: role in implicit && role in h.roles ==>
        Recorded(implicit, role) * h.roles <= ParentsOf(h.parents, role)
  }

  /** Taking parents away by hand keeps that exactly when none of them is recorded. */
  lemma RevokeKeepsExactly(implicit: map<RoleId, seq<RoleId>>, h: Hierarchy, role: RoleId, ps: set<RoleId>)
    requires RecordedKept(implicit, h) && role in h.roles
    ensures RecordedKept(implicit, h.(parents := h.parents - ToParents(role, ps))) <==>
            Recorded(implicit, role) * h.roles !! ps
  {
    var h1 := h.(parents := h.parents - ToParents(role, ps));
    if RecordedKept(implicit, h1) {
      forall x | x in Recorded(implicit, role) * h.roles ensures x !in ps {
        assert x in ParentsOf(h1.parents, role);
        var l :| l in h1.parents && l.0 == role && l.1 == x;
        assert l == (role, x);
      }
    }
    if Recorded(implicit, role) * h.roles !! ps {
      forall r, x | r in implicit && r in h.roles && x in Recorded(implicit, r) * h.roles
        ensures x in ParentsOf(h1.parents, r)
      {
        assert x in ParentsOf(h.parents, r);
        var l :| l in h.parents && l.0 == r && l.1 == x;
        assert l in h1.parents;
      }
    }
  }

  lemma DeletionKeeps(implicit: map<RoleId, seq<RoleId>>, h: Hierarchy, gone: set<RoleId>)
    requires RecordedKept(implicit, h)
    ensures RecordedKept(implicit, Without(h, gone))
  {
    var h1 := Without(h, gone);
    forall r, x | r in implicit && r in h1.roles && x in Recorded(implicit, r) * h1.roles
      ensures x in ParentsOf(h1.parents, r)
    {
      assert x in ParentsOf(h.parents, r);
      var l :| l in h.parents && l.0 == r && l.1 == x;
      assert l in h1.parents;
    }
  }

  lemma GrantKeeps(implicit: map<RoleId, seq<RoleId>>, h: Hierarchy, added: set<Link>)
    requires RecordedKept(implicit, h)
    ensures RecordedKept(implicit, h.(parents := h.parents + added))
  {
    forall r, x | r in implicit && r in h.roles && x in Recorded(implicit, r) * h.roles
      ensures x in ParentsOf(h.parents + added, r)
    {
      assert x in ParentsOf(h.parents, r);
      var l :| l in h.parents && l.0 == r && l.1 == x;
      assert l in h.parents + added;
    }
  }

  /** The links once the parents of one role have been brought up to date. */
  function Resynced(parents: set<Link>, role: RoleId, o: set<RoleId>, n: set<RoleId>): set<Link> {
    parents - ToParents(role, o - n) + ToParents(role, n - o)
  }

  lemma ResyncedParents(parents: set<Link>, role: RoleId, o: set<RoleId>, n: set<RoleId>)
    ensures ParentsOf(Resynced(parents, role, o, n), role) == Synced(ParentsOf(parents, role), o, n)
    ensures forall r :: r != role ==> ParentsOf(Resynced(parents, role, o, n), r) == ParentsOf(parents, r)
  {
    var after := Resynced(parents, role, o, n);
    forall x ensures x in ParentsOf(after, role) <==> x in Synced(ParentsOf(parents, role), o, n) {
      LinkFor(after, role, x);
      LinkFor(parents, role, x);
    }
    forall r | r != role ensures ParentsOf(after, r) == ParentsOf(parents, r) {
      forall x ensures x in ParentsOf(after, r) <==> x in ParentsOf(parents, r) {
        LinkFor(after, r, x);
        LinkFor(parents, r, x);
      }
    }
  }

  lemma LinkFor(parents: set<Link>, role: RoleId, x: RoleId)
    ensures x in ParentsOf(parents, role) <==> (role, x) in parents
  {
    if (role, x) in parents {
      assert (role, x).1 == x;
    }
  }

  lemma ResyncKeeps(implicit: map<RoleId, seq<RoleId>>, h: Hierarchy, role: RoleId, n: set<RoleId>, list: seq<RoleId>)
    requires RecordedKept(implicit, h) && role in h.roles && n <= h.roles && Elements(list) == n
    ensures RecordedKept(implicit[role := list], h.(parents := Resynced(h.parents, role, Recorded(implicit, role), n)))
  {
    var o := Recorded(implicit, role);
    ResyncedParents(h.parents, role, o, n);
    SyncedExactly(ParentsOf(h.parents, role), o, n);
    assert o * n <= ParentsOf(h.parents, role);
  }

  // ---------------------------------------------------------------- runs

  datatype State = State(h: Hierarchy, implicit: map<RoleId, seq<RoleId>>)

  datatype Op =
    | Grant(role: RoleId, ps: set<RoleId>)
    | Revoke(role: RoleId, ps: set<RoleId>)
    | Create(role: RoleId)
    | Delete(gone: set<RoleId>)
    | Resync(role: RoleId, resolved: seq<RoleId>)

  /** Only parents that are not recorded are taken away by hand, and a new role has an id never used before. */
  predicate Allowed(s: State, op: Op) {
    match op
    case Grant(role, ps) => role in s.h.roles && ps <= s.h.roles
    case Revoke(role, ps) => role in s.h.roles && ps !! Recorded(s.implicit, role)
    case Create(role) => role !in s.h.roles && role !in s.implicit && forall r :: r in s.implicit ==>
        role !in s.implicit[r]
    case Delete(gone) => true
    case Resync(role, resolved) => role in s.h.roles && Elements(resolved) <= s.h.roles
  }

  function Apply(s: State, op: Op): State {
    match op
    case Grant(role, ps) => s.(h := s.h.(parents := s.h.parents + ToParents(role, ps)))
    case Revoke(role, ps) => s.(h := s.h.(parents := s.h.parents - ToParents(role, ps)))
    case Create(role) => s.(h := s.h.(roles := s.h.roles + {role}))
    case Delete(gone) => s.(h := Without(s.h, gone))
    case Resync(role, resolved) =>
      State(s.h.(parents := Resynced(s.h.parents, role, Recorded(s.implicit, role), Elements(resolved))),
            s.implicit[role := resolved])
  }

  predicate Legal(s: State, ops: seq<Op>)
    decreases |ops|
  {
    ops == [] || (Allowed(s, ops[0]) && Legal(Apply(s, ops[0]), ops[1..]))
  }

  function Run(s: State, ops: seq<Op>): State
    decreases |ops|
  {
    if ops == [] then s else Run(Apply(s, ops[0]), ops[1..])
  }

  /** What each operation does to one link, one role and one recorded list. */
  lemma AppliesExactly(s: State, op: Op, d: RoleId, p: RoleId)
    requires Allowed(s, op) && s.h.Valid()
    ensures var after := Apply(s, op);
            match op
            case Grant(role, ps) =>
              after == State(after.h.(roles := s.h.roles), s.implicit) &&
              ((d, p) in after.h.parents <==> (d, p) in s.h.parents || (d == role && p in ps))
            case Revoke(role, ps) =>
              after == State(after.h.(roles := s.h.roles), s.implicit) &&
              ((d, p) in after.h.parents <==> (d, p) in s.h.parents && !(d == role && p in ps))
            case Create(role) =>
              after == State(Hierarchy(s.h.roles + {role}, s.h.parents), s.implicit)
            case Delete(gone) =>
              && after.h.roles == s.h.roles - gone && after.implicit == s.implicit
              && ((d, p) in after.h.parents <==> (d, p) in s.h.parents && d !in gone && p !in gone)
            case Resync(role, resolved) =>
              after.h.roles == s.h.roles && after.implicit == s.implicit[role := resolved]
  {
  }

  /** A run ends with its last operation. */
  lemma {:induction false} RunEnds(s: State, ops: seq<Op>, op: Op)
    ensures Run(s, []) == s && Run(s, ops + [op]) == Apply(Run(s, ops), op)
    decreases |ops|
  {
    if ops == [] {
      assert [] + [op] == [op] && [op][1..] == [];
    } else {
      assert (ops + [op])[1..] == ops[1..] + [op];
      RunEnds(Apply(s, ops[0]), ops[1..], op);
    }
  }

  lemma StepKeeps(s: State, op: Op)
    requires RecordedKept(s.implicit, s.h) && Allowed(s, op)
    ensures RecordedKept(Apply(s, op).implicit, Apply(s, op).h)
  {
    match op
    case Grant(role, ps) => GrantKeeps(s.implicit, s.h, ToParents(role, ps));
    case Revoke(role, ps) => RevokeKeepsExactly(s.implicit, s.h, role, ps);
    case Create(role) =>
    case Delete(gone) => DeletionKeeps(s.implicit, s.h, gone);
    case Resync(role, resolved) => ResyncKeeps(s.implicit, s.h, role, Elements(resolved), resolved);
  }

  lemma {:induction false} RunKeeps(s: State, ops: seq<Op>)
    requires RecordedKept(s.implicit, s.h) && Legal(s, ops)
    ensures RecordedKept(Run(s, ops).implicit, Run(s, ops).h)
    decreases |ops|
  {
    if ops != [] {
      StepKeeps(s, ops[0]);
      RunKeeps(Apply(s, ops[0]), ops[1..]);
    }
  }

  /** After any run, a resync leaves a role with exactly the resolved ones of the parents that were or are implicit
      and still exist, keeps its other parents and every other role's, and a second one changes nothing. */
  lemma ResyncAfterAnyRun(s: State, ops: seq<Op>, role: RoleId, resolved: seq<RoleId>)
    requires RecordedKept(s.implicit, s.h) && Legal(s, ops) && Allowed(Run(s, ops), Resync(role, resolved))
    ensures var before := Run(s, ops);
            var after := Apply(before, Resync(role, resolved));
            var o, n := Recorded(before.implicit, role), Elements(resolved);
            && n <= ParentsOf(after.h.parents, role)
            && ParentsOf(after.h.parents, role) * (o * before.h.roles + n) == n
            && ParentsOf(after.h.parents, role) - (o + n) == ParentsOf(before.h.parents, role) - (o + n)
            && (forall r :: r != role ==> ParentsOf(after.h.parents, r) == ParentsOf(before.h.parents, r))
            && Apply(after, Resync(role, resolved)) == after
  {
    RunKeeps(s, ops);
    var before := Run(s, ops);
    var o, n := Recorded(before.implicit, role), Elements(resolved);
    var after := Apply(before, Resync(role, resolved));
    ResyncedParents(before.h.parents, role, o, n);
    SyncedExactly(ParentsOf(before.h.parents, role), o, n);
    assert o * n <= ParentsOf(before.h.parents, role);
    assert Recorded(after.implicit, role) == n;
    assert Resynced(after.h.parents, role, n, n) == after.h.parents;
  }

  /** What goes on a batch's list: the role, or nothing. */
  function OneIf(role: RoleId, put: bool): set<RoleId> {
    if put then {role} else {}
  }

  lemma SameListSameSet(implicit: map<RoleId, seq<RoleId>>, role: RoleId, list: seq<RoleId>, resolved: set<RoleId>)
    requires Increasing(list) && Elements(list) == resolved && (role in implicit ==> Increasing(implicit[role]))
    ensures (if role in implicit then implicit[role] else []) == list <==> Recorded(implicit, role) == resolved
  {
    var recorded := if role in implicit then implicit[role] else [];
    if Elements(recorded) == resolved {
      OneSortedList(recorded, list);
    }
  }

  class ImplicitRoles {
    const store: RoleTable
    var implicit: map<RoleId, seq<RoleId>>

    ghost predicate Valid()
      reads this, store, store.table
    {
      store.Valid() && RecordedKept(implicit, store.H()) && forall r :: r in implicit ==> Increasing(implicit[r])
    }

    constructor ()
      ensures Valid() && store.IsExact() && store.roles == {} && implicit == map[] && fresh(store) && fresh(store.table)
    {
      store := new RoleTable();
      implicit := map[];
    }

    /** Bring one role up to date with its resolved parents.  When a rebuild raises, the request's transaction undoes
        everything. */
    method UpdateRoleParentage(role: RoleId, resolved: set<RoleId>) returns (ok: bool)
      requires Valid() && role in store.roles && resolved <= store.roles
      modifies this, store, store.table
      ensures Valid() && store.batching == old(store.batching) && store.roles == old(store.roles)
      ensures ok ==> Recorded(implicit, role) == resolved
      ensures ok ==>
                store.parents == Resynced(old(store.parents), role, Recorded(old(implicit), role), resolved)
      ensures forall r :: r != role ==>
                (r in implicit <==> r in old(implicit)) && (r in implicit ==> implicit[r] == old(implicit)[r])
      ensures !ok ==> store.parents == old(store.parents) && store.table.rows == old(store.table.rows)
      ensures !ok ==> implicit == old(implicit)
      ensures store.batching || |store.roles| <= MAX_SWEEPS ==> ok
      ensures store.batching ==>
                store.additions == old(store.additions) + OneIf(role, Recorded(old(implicit), role) != resolved)
      ensures store.batching ==>
                store.removals == old(store.removals) + OneIf(role, !(Recorded(old(implicit), role) <= resolved))
    {
      var roles0, parents0, rows0 := store.roles, store.parents, store.table.rows;
      var additions0, removals0, implicit0 := store.additions, store.removals, implicit;
      ghost var ever0 := store.ever;
      ok := TryUpdate(role, resolved);
      if !ok {
        store.Restore(roles0, parents0, rows0, additions0, removals0, ever0);
        implicit := implicit0;
      }
    }

    /** The same, up to where a rebuild raises. */
    method TryUpdate(role: RoleId, resolved: set<RoleId>) returns (ok: bool)
      requires Valid() && role in store.roles && resolved <= store.roles
      modifies this, store, store.table
      ensures store.batching == old(store.batching) && store.roles == old(store.roles)
      ensures ok ==> Valid() && Recorded(implicit, role) == resolved
      ensures ok ==>
                store.parents == Resynced(old(store.parents), role, Recorded(old(implicit), role), resolved)
      ensures forall r :: r != role ==>
                (r in implicit <==> r in old(implicit)) && (r in implicit ==> implicit[r] == old(implicit)[r])
      ensures store.batching || |store.roles| <= MAX_SWEEPS ==> ok
      ensures store.batching ==>
                store.additions == old(store.additions) + OneIf(role, Recorded(old(implicit), role) != resolved)
      ensures store.batching ==>
                store.removals == old(store.removals) + OneIf(role, !(Recorded(old(implicit), role) <= resolved))
    {
      var original := Recorded(implicit, role);
      ok := Replace(role, original, resolved);
      if ok {
        var list := SortedList(resolved);
        ResyncKeeps(implicit, Hierarchy(old(store.roles), old(store.parents)), role, resolved, list);
        SameListSameSet(implicit, role, list, resolved);
        if (if role in implicit then implicit[role] else []) != list {
          implicit := implicit[role := list];
          ok := store.SaveRole(role);
        } else {
          assert role in implicit ==> implicit[role := list] == implicit;
        }
      }
    }

    /** Old implicit parents out, new ones in. */
    method Replace(role: RoleId, original: set<RoleId>, resolved: set<RoleId>) returns (ok: bool)
      requires store.Valid() && role in store.roles && resolved <= store.roles
      modifies store, store.table
      ensures store.Valid() && store.batching == old(store.batching) && store.roles == old(store.roles)
      ensures ok ==> store.parents == Resynced(old(store.parents), role, original, resolved)
      ensures store.batching || |store.roles| <= MAX_SWEEPS ==> ok
      ensures store.batching ==> store.additions == old(store.additions) + OneIf(role, !(resolved <= original))
      ensures store.batching ==> store.removals == old(store.removals) + OneIf(role, !(original <= resolved))
    {
      ok := store.RemoveParents(role, original - resolved);
      if ok {
        ok := store.AddParents(role, resolved - original);
      }
    }
  }
}
