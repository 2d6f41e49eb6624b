/** Roles, their parents, and what it takes for a stored ancestor table to be right.

    A role inherits from its parents; the hierarchy may contain loops.  The table holds a row for every role and
    each of its ancestors, and for every role and itself. */
module RoleGraph {

  type RoleId = nat

  /** A role and one of its parents. */
  type Link = (RoleId, RoleId)

  /** A role and one of its ancestors. */
  type Row = (RoleId, RoleId)

  datatype Hierarchy = Hierarchy(roles: set<RoleId>, parents: set<Link>) {
    ghost predicate Valid() {
      forall l :: l in parents ==> l.0 in roles && l.1 in roles
    }
  }

  /** One or more links lead from d through `mid` up to a. */
  ghost predicate Climbs(parents: set<Link>, d: RoleId, mid: seq<RoleId>, a: RoleId)
    decreases |mid|
  {
    if mid == [] then (d, a) in parents
    else (d, mid[0]) in parents && Climbs(parents, mid[0], mid[1..], a)
  }

  ghost predicate Above(parents: set<Link>, d: RoleId, a: RoleId) {
    exists mid :: Climbs(parents, d, mid, a)
  }

  ghost predicate IsAncestor(parents: set<Link>, d: RoleId, a: RoleId) {
    d == a || Above(parents, d, a)
  }

  ghost predicate OnLoop(parents: set<Link>, n: RoleId) {
    Above(parents, n, n)
  }

  /** The table lists exactly the ancestors of every role. */
  ghost predicate Exact(h: Hierarchy, rows: set<Row>) {
    forall d: RoleId, a: RoleId :: (d, a) in rows <==> d in h.roles && IsAncestor(h.parents, d, a)
  }

  // ---------------------------------------------------------------- climbing

  lemma ClimbOne(parents: set<Link>, d: RoleId, p: RoleId, a: RoleId)
    requires (d, p) in parents && IsAncestor(parents, p, a)
    ensures Above(parents, d, a)
  {
    if p == a {
      assert Climbs(parents, d, [], a);
    } else {
      var mid :| Climbs(parents, p, mid, a);
      assert ([p] + mid)[1..] == mid;
      assert Climbs(parents, d, [p] + mid, a);
    }
  }

  lemma {:induction false} AboveTransitive(parents: set<Link>, d: RoleId, mid: seq<RoleId>, b: RoleId, a: RoleId)
    requires Climbs(parents, d, mid, b) && IsAncestor(parents, b, a)
    ensures Above(parents, d, a)
    decreases |mid|
  {
    if mid == [] {
      ClimbOne(parents, d, b, a);
    } else {
      AboveTransitive(parents, mid[0], mid[1..], b, a);
      ClimbOne(parents, d, mid[0], a);
    }
  }

  lemma Transitive(parents: set<Link>, d: RoleId, b: RoleId, a: RoleId)
    requires IsAncestor(parents, d, b) && IsAncestor(parents, b, a)
    ensures IsAncestor(parents, d, a)
    ensures Above(parents, d, b) || Above(parents, b, a) ==> Above(parents, d, a)
  {
    if d != b || Above(parents, d, b) {
      var mid :| Climbs(parents, d, mid, b);
      AboveTransitive(parents, d, mid, b, a);
    }
  }

  lemma FirstStep(parents: set<Link>, d: RoleId, a: RoleId) returns (p: RoleId)
    requires Above(parents, d, a)
    ensures (d, p) in parents && IsAncestor(parents, p, a)
  {
    var mid :| Climbs(parents, d, mid, a);
    if mid == [] {
      p := a;
    } else {
      p := mid[0];
      assert Climbs(parents, p, mid[1..], a);
    }
  }

  lemma {:induction false} MoreLinks(few: set<Link>, many: set<Link>, d: RoleId, mid: seq<RoleId>, a: RoleId)
    requires few <= many && Climbs(few, d, mid, a)
    ensures Climbs(many, d, mid, a)
    decreases |mid|
  {
    if mid != [] {
      MoreLinks(few, many, mid[0], mid[1..], a);
    }
  }

  lemma MoreAncestors(few: set<Link>, many: set<Link>, d: RoleId, a: RoleId)
    requires few <= many && IsAncestor(few, d, a)
    ensures IsAncestor(many, d, a) && (Above(few, d, a) ==> Above(many, d, a))
  {
    if Above(few, d, a) {
      var mid :| Climbs(few, d, mid, a);
      MoreLinks(few, many, d, mid, a);
    }
  }

  lemma {:induction false} InRoles(h: Hierarchy, d: RoleId, mid: seq<RoleId>, a: RoleId)
    requires h.Valid() && Climbs(h.parents, d, mid, a)
    ensures d in h.roles && a in h.roles
    decreases |mid|
  {
    if mid != [] {
      InRoles(h, mid[0], mid[1..], a);
    }
  }

  // ---------------------------------------------------------------- what a stored table satisfies

  /** Some parent of d has the ancestor a, as far as the table tells. */
  predicate Supported(parents: set<Link>, rows: set<Row>, d: RoleId, a: RoleId) {
    exists l :: l in parents && l.0 == d && (l.1, a) in rows
  }

  /** Roles outside `pending` have themselves and all that their parents have. */
  ghost predicate ClosedOutside(h: Hierarchy, rows: set<Row>, pending: set<RoleId>) {
    && (forall d :: d in h.roles && d !in pending ==> (d, d) in rows)
    && (forall d: RoleId, a: RoleId :: d in h.roles && d !in pending && Supported(h.parents, rows, d, a) ==>
        (d, a) in rows)
  }

  /** Roles outside `pending` have nothing else. */
  ghost predicate JustifiedOutside(h: Hierarchy, rows: set<Row>, pending: set<RoleId>) {
    forall d: RoleId, a: RoleId :: (d, a) in rows && d !in pending && d != a ==> Supported(h.parents, rows, d, a)
  }

  ghost predicate Settled(h: Hierarchy, rows: set<Row>) {
    ClosedOutside(h, rows, {}) && JustifiedOutside(h, rows, {})
  }

  /** Every row is between roles, and right for the links `ever`. */
  ghost predicate Within(roles: set<RoleId>, ever: set<Link>, rows: set<Row>) {
    forall d: RoleId, a: RoleId :: (d, a) in rows ==> d in roles && a in roles && IsAncestor(ever, d, a)
  }

  lemma {:induction false} ClosedHas(h: Hierarchy, rows: set<Row>, d: RoleId, mid: seq<RoleId>, a: RoleId)
    requires h.Valid() && ClosedOutside(h, rows, {}) && Climbs(h.parents, d, mid, a)
    ensures (d, a) in rows
    decreases |mid|
  {
    if mid == [] {
      assert (a, a) in rows;
      assert (d, a) in h.parents && (d, a).1 == a;
    } else {
      ClosedHas(h, rows, mid[0], mid[1..], a);
      assert (d, mid[0]) in h.parents;
    }
    assert Supported(h.parents, rows, d, a);
  }

  /** A closed table misses no ancestor, loops or not. */
  lemma ClosedIsComplete(h: Hierarchy, rows: set<Row>, d: RoleId, a: RoleId)
    requires h.Valid() && ClosedOutside(h, rows, {}) && d in h.roles && IsAncestor(h.parents, d, a)
    ensures (d, a) in rows
  {
    if d != a {
      var mid :| Climbs(h.parents, d, mid, a);
      ClosedHas(h, rows, d, mid, a);
    }
  }

  /** A row that is not right leads up to a loop whose roles all carry the same wrong ancestor. */
  lemma {:induction false} StaleLeadsToLoop(h: Hierarchy, rows: set<Row>, d: RoleId, a: RoleId, seen: set<RoleId>)
    returns (n: RoleId)
    requires h.Valid() && JustifiedOutside(h, rows, {}) && (d, a) in rows && !IsAncestor(h.parents, d, a)
    requires d in h.roles && d !in seen && seen <= h.roles && forall v :: v in seen ==> Above(h.parents, v, d)
    ensures OnLoop(h.parents, n) && (n, a) in rows && !IsAncestor(h.parents, n, a)
    decreases h.roles - seen
  {
    assert Supported(h.parents, rows, d, a);
    var l :| l in h.parents && l.0 == d && (l.1, a) in rows;
    var p := l.1;
    assert l == (d, p);
    assert Climbs(h.parents, d, [], p);
    if IsAncestor(h.parents, p, a) {
      ClimbOne(h.parents, d, p, a);
    }
    forall v | v in seen ensures Above(h.parents, v, p) {
      Transitive(h.parents, v, d, p);
    }
    if p == d || p in seen {
      n := p;
    } else {
      n := StaleLeadsToLoop(h, rows, p, a, seen + {d});
    }
  }

  /** On every loop of the hierarchy, whoever is an ancestor by the links `ever` still is one, or is gone. */
  ghost predicate LoopsKeep(h: Hierarchy, ever: set<Link>) {
    forall n: RoleId, a: RoleId :: OnLoop(h.parents, n) && a in h.roles && IsAncestor(ever, n, a) ==>
        IsAncestor(h.parents, n, a)
  }

  /** The rows left once all rows of deleted roles are gone. */
  function Cascade(rows: set<Row>, roles: set<RoleId>): set<Row> {
    set r | r in rows && r.0 in roles && r.1 in roles
  }

  /** A settled table is exact if no loop has lost an ancestor. */
  lemma SettledIsExact(h: Hierarchy, ever: set<Link>, rows: set<Row>)
    requires h.Valid() && Settled(h, rows) && Within(h.roles, ever, rows) && LoopsKeep(h, ever)
    ensures Exact(h, rows)
  {
    forall d: RoleId, a: RoleId ensures (d, a) in rows <==> d in h.roles && IsAncestor(h.parents, d, a) {
      if (d, a) in rows && !IsAncestor(h.parents, d, a) {
        var n := StaleLeadsToLoop(h, rows, d, a, {});
        assert false;
      }
      if d in h.roles && IsAncestor(h.parents, d, a) {
        ClosedIsComplete(h, rows, d, a);
      }
    }
  }

  ghost predicate Acyclic(parents: set<Link>) {
    forall n :: !OnLoop(parents, n)
  }

  /** Whatever happened before, a settled table of a hierarchy without loops is exact. */
  lemma SettledWithoutLoops(h: Hierarchy, ever: set<Link>, rows: set<Row>)
    requires h.Valid() && Settled(h, rows) && Within(h.roles, ever, rows) && Acyclic(h.parents)
    ensures Exact(h, rows)
  {
    SettledIsExact(h, ever, rows);
  }

  /** Exactness is settled. */
  lemma ExactIsSettled(h: Hierarchy, rows: set<Row>)
    requires h.Valid() && Exact(h, rows)
    ensures Settled(h, rows) && Within(h.roles, h.parents, rows)
  {
    forall d: RoleId, a: RoleId | d in h.roles && Supported(h.parents, rows, d, a) ensures (d, a) in rows {
      var l :| l in h.parents && l.0 == d && (l.1, a) in rows;
      assert l == (d, l.1);
      ClimbOne(h.parents, d, l.1, a);
    }
    forall d: RoleId, a: RoleId | (d, a) in rows && d != a ensures Supported(h.parents, rows, d, a) && a in h.roles {
      var p := FirstStep(h.parents, d, a);
      assert (d, p) in h.parents && (d, p).1 == p;
      assert (p, a) in rows;
      var mid :| Climbs(h.parents, d, mid, a);
      InRoles(h, d, mid, a);
    }
  }

  // ---------------------------------------------------------------- when removals are undone exactly

  /** Each of the rows rests on another of them. */
  ghost predicate SelfSupporting(parents: set<Link>, rows: set<Row>) {
    forall d: RoleId, a: RoleId :: (d, a) in rows ==> Supported(parents, rows, d, a)
  }

  ghost predicate KeepsSelfSupporting(parents: set<Link>, before: set<Row>, after: set<Row>) {
    forall rows :: rows <= before && SelfSupporting(parents, rows) ==> rows <= after
  }

  /** The roles on a common loop with n, each with the ancestor a. */
  ghost function LoopRows(h: Hierarchy, n: RoleId, a: RoleId): set<Row> {
    set m | m in h.roles && Above(h.parents, n, m) && Above(h.parents, m, n) :: (m, a)
  }

  lemma LoopRowsSelfSupporting(h: Hierarchy, n: RoleId, a: RoleId)
    requires h.Valid() && OnLoop(h.parents, n)
    ensures SelfSupporting(h.parents, LoopRows(h, n, a)) && (n, a) in LoopRows(h, n, a)
  {
    var around :| Climbs(h.parents, n, around, n);
    InRoles(h, n, around, n);
    var rows := LoopRows(h, n, a);
    forall m | (m, a) in rows ensures Supported(h.parents, rows, m, a) {
      var p := FirstStep(h.parents, m, n);
      assert Climbs(h.parents, m, [], p);
      Transitive(h.parents, n, m, p);
      if p == n {
        assert Above(h.parents, p, n);
      }
      assert (m, p) in h.parents && (m, p).1 == p && (p, a) in rows;
    }
  }

  /** After links or roles are taken away from an exact table's hierarchy, the rebuilt table is exact if and only if no
      loop that is left has lost an ancestor. */
  lemma RemovalExactlyWhen(h0: Hierarchy, h: Hierarchy, before: set<Row>, after: set<Row>)
    requires h0.Valid() && h.Valid() && h.roles <= h0.roles && h.parents <= h0.parents && Exact(h0, before)
    requires Settled(h, after) && Within(h.roles, h0.parents, after)
    requires KeepsSelfSupporting(h.parents, Cascade(before, h.roles), after)
    ensures Exact(h, after) <==> LoopsKeep(h, h0.parents)
  {
    if LoopsKeep(h, h0.parents) {
      SettledIsExact(h, h0.parents, after);
    }
    forall n: RoleId, a: RoleId | OnLoop(h.parents, n) && a in h.roles && IsAncestor(h0.parents, n, a) &&
        Exact(h, after)
      ensures IsAncestor(h.parents, n, a)
    {
      LoopRowsSelfSupporting(h, n, a);
      forall m | (m, a) in LoopRows(h, n, a) ensures (m, a) in before {
        MoreAncestors(h.parents, h0.parents, m, n);
        Transitive(h0.parents, m, n, a);
      }
      assert LoopRows(h, n, a) <= Cascade(before, h.roles);
      assert (n, a) in after;
    }
  }

  /** No loop carries, in this table, an ancestor that its roles do not have. */
  ghost predicate LoopsCarry(h: Hierarchy, rows: set<Row>) {
    forall n: RoleId, a: RoleId :: OnLoop(h.parents, n) && LoopRows(h, n, a) <= rows ==> IsAncestor(h.parents, n, a)
  }

  lemma {:induction false} InheritsAlong(h: Hierarchy, rows: set<Row>, d: RoleId, mid: seq<RoleId>, n: RoleId,
                                         a: RoleId)
    requires h.Valid() && ClosedOutside(h, rows, {}) && Climbs(h.parents, d, mid, n) && (n, a) in rows
    ensures (d, a) in rows
    decreases |mid|
  {
    if mid == [] {
      assert (d, n).0 == d && ((d, n).1, a) in rows;
    } else {
      InheritsAlong(h, rows, mid[0], mid[1..], n, a);
      assert (d, mid[0]).0 == d && ((d, mid[0]).1, a) in rows;
    }
    assert Supported(h.parents, rows, d, a);
  }

  /** Whatever a settled table was rebuilt from: it is not exact if a loop carried an ancestor it had lost; and if
      nothing was added, that is the only way. */
  lemma SettledExactlyWhen(h: Hierarchy, before: set<Row>, after: set<Row>)
    requires h.Valid() && Settled(h, after) && KeepsSelfSupporting(h.parents, before, after)
    requires forall d: RoleId, a: RoleId :: (d, a) in after ==> d in h.roles
    ensures Exact(h, after) ==> LoopsCarry(h, before)
    ensures after <= before && LoopsCarry(h, before) ==> Exact(h, after)
  {
    forall n: RoleId, a: RoleId | Exact(h, after) && OnLoop(h.parents, n) && LoopRows(h, n, a) <= before
      ensures IsAncestor(h.parents, n, a)
    {
      LoopRowsSelfSupporting(h, n, a);
      assert (n, a) in after;
    }
    if after <= before && LoopsCarry(h, before) {
      forall d: RoleId, a: RoleId ensures (d, a) in after <==> d in h.roles && IsAncestor(h.parents, d, a) {
        if (d, a) in after && !IsAncestor(h.parents, d, a) {
          var n := StaleLeadsToLoop(h, after, d, a, {});
          LoopRowsStay(h, after, n, a);
          assert false;
        }
        if d in h.roles && IsAncestor(h.parents, d, a) {
          ClosedIsComplete(h, after, d, a);
        }
      }
    }
  }

  lemma LoopRowsStay(h: Hierarchy, rows: set<Row>, n: RoleId, a: RoleId)
    requires h.Valid() && ClosedOutside(h, rows, {}) && (n, a) in rows
    ensures LoopRows(h, n, a) <= rows
  {
    forall m | (m, a) in LoopRows(h, n, a) ensures (m, a) in rows {
      var mid :| Climbs(h.parents, m, mid, n);
      InheritsAlong(h, rows, m, mid, n, a);
    }
  }

  /** Role 0 is taken away as a parent of role 1, but 1 and 2 are each other's parents: both keep 0. */
  lemma LoopKeepsRemovedAncestor(after: set<Row>)
    requires KeepsSelfSupporting({(1, 2), (2, 1)}, {(0, 0), (1, 1), (2, 2), (1, 0), (2, 0), (1, 2), (2, 1)}, after)
    ensures (1, 0) in after && (2, 0) in after
    ensures !IsAncestor({(1, 2), (2, 1)}, 1, 0)
    ensures Exact(Hierarchy({0, 1, 2}, {(1, 0), (1, 2), (2, 1)}),
                  {(0, 0), (1, 1), (2, 2), (1, 0), (2, 0), (1, 2), (2, 1)})
  {
    var links := {(1, 2), (2, 1)};
    var rows: set<Row> := {(1, 0), (2, 0)};
    assert (1, 2) in links && (2, 1) in links && (1, 2).1 == 2 && (2, 1).1 == 1;
    assert SelfSupporting(links, rows);
    assert rows <= {(0, 0), (1, 1), (2, 2), (1, 0), (2, 0), (1, 2), (2, 1)};
    if Above(links, 1, 0) {
      var mid :| Climbs(links, 1, mid, 0);
      NeverReachesZero(1, mid);
    }
    ThreeRolesExact();
  }

  lemma {:induction false} NeverReachesZero(d: RoleId, mid: seq<RoleId>)
    ensures !Climbs({(1, 2), (2, 1)}, d, mid, 0)
    decreases |mid|
  {
    if mid != [] {
      NeverReachesZero(mid[0], mid[1..]);
    }
  }

  lemma ThreeRolesExact()
    ensures Exact(Hierarchy({0, 1, 2}, {(1, 0), (1, 2), (2, 1)}),
                  {(0, 0), (1, 1), (2, 2), (1, 0), (2, 0), (1, 2), (2, 1)})
  {
    var h := Hierarchy({0, 1, 2}, {(1, 0), (1, 2), (2, 1)});
    var rows: set<Row> := {(0, 0), (1, 1), (2, 2), (1, 0), (2, 0), (1, 2), (2, 1)};
    forall d: RoleId, a: RoleId ensures (d, a) in rows <==> d in h.roles && IsAncestor(h.parents, d, a) {
      assert Climbs(h.parents, 1, [], 0) && Climbs(h.parents, 1, [], 2) && Climbs(h.parents, 2, [], 1);
      ClimbOne(h.parents, 2, 1, 0);
      if d in h.roles && Above(h.parents, d, a) {
        var mid :| Climbs(h.parents, d, mid, a);
        InRoles(h, d, mid, a);
        var p := FirstStep(h.parents, d, a);
      }
    }
  }
}
