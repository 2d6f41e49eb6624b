/** The stored ancestor table: kept up to date when parents are added or removed, one layer of children at a time. */
module RoleAncestors {
  import opened Wrappers

  import opened RoleGraph

  /** Statements name at most this many roles. */
  const CHUNK_SIZE: nat := 40000

  const MAX_SWEEPS: nat := 100

  // ---------------------------------------------------------------- one statement

  /** Drop what no parent supports any more, for some roles. */
  function Pruned(parents: set<Link>, rows: set<Row>, ids: set<RoleId>): set<Row> {
    set r | r in rows && (r.0 in ids && r.0 != r.1 ==> Supported(parents, rows, r.0, r.1))
  }

  function Inherited(h: Hierarchy, rows: set<Row>, ids: set<RoleId>): set<Row> {
    (set d | d in h.roles && d in ids :: (d, d)) +
    (set l, r | l in h.parents && r in rows && l.1 == r.0 && l.0 in h.roles && l.0 in ids :: (l.0, r.1))
  }

  /** Add what some roles should have and have not. */
  function Extended(h: Hierarchy, rows: set<Row>, ids: set<RoleId>): set<Row> {
    rows + Inherited(h, rows, ids)
  }

  function ChildrenOf(parents: set<Link>, ids: set<RoleId>): set<RoleId> {
    set l | l in parents && l.1 in ids :: l.0
  }

  /** A delete statement takes away a role's row for an ancestor, not its own, that no parent has. */
  lemma PrunedExactly(parents: set<Link>, rows: set<Row>, ids: set<RoleId>, d: RoleId, a: RoleId)
    ensures (d, a) in Pruned(parents, rows, ids) <==>
            (d, a) in rows && (d !in ids || d == a || exists p :: (d, p) in parents && (p, a) in rows)
  {
    if Supported(parents, rows, d, a) {
      var l :| l in parents && l.0 == d && (l.1, a) in rows;
      assert l == (d, l.1);
    }
    if p :| (d, p) in parents && (p, a) in rows {
      assert (d, p).0 == d;
    }
  }

  lemma ChildrenExactly(parents: set<Link>, ids: set<RoleId>, c: RoleId)
    ensures c in ChildrenOf(parents, ids) <==> exists p :: p in ids && (c, p) in parents
  {
    if c in ChildrenOf(parents, ids) {
      var l :| l in parents && l.1 in ids && l.0 == c;
      assert l == (c, l.1);
    }
    if p :| p in ids && (c, p) in parents {
      assert (c, p).1 in ids;
    }
  }

  lemma InheritedExactly(h: Hierarchy, rows: set<Row>, ids: set<RoleId>, d: RoleId, a: RoleId)
    ensures (d, a) in Inherited(h, rows, ids) <==>
            d in h.roles && d in ids && (d == a || Supported(h.parents, rows, d, a))
    ensures Supported(h.parents, rows, d, a) <==> exists p :: (d, p) in h.parents && (p, a) in rows
  {
    if p :| (d, p) in h.parents && (p, a) in rows {
      assert (d, p).0 == d;
    }
    if Supported(h.parents, rows, d, a) {
      var l :| l in h.parents && l.0 == d && (l.1, a) in rows;
      assert (l.1, a).0 == l.1;
    }
  }

  /** What holds between two statements: what may be missing is missing from `adding`, what may be wrong is
      wrong at `removing`, and rows that support each other all along are still there. */
  ghost predicate Sweep(h: Hierarchy, ever: set<Link>, before: set<Row>, rows: set<Row>,
                        adding: set<RoleId>, removing: set<RoleId>) {
    && ClosedOutside(h, rows, adding)
    && JustifiedOutside(h, rows, removing)
    && Within(h.roles, ever, rows)
    && KeepsSelfSupporting(h.parents, before, rows)
  }

  lemma SweepStarts(h: Hierarchy, ever: set<Link>, rows: set<Row>, adding: set<RoleId>, removing: set<RoleId>)
    requires ClosedOutside(h, rows, adding) && JustifiedOutside(h, rows, removing) && Within(h.roles, ever, rows)
    ensures Sweep(h, ever, rows, rows, adding, removing)
  {
  }

  lemma PruneKeepsClosed(h: Hierarchy, rows: set<Row>, ids: set<RoleId>, adding: set<RoleId>)
    requires ClosedOutside(h, rows, adding)
    ensures ClosedOutside(h, Pruned(h.parents, rows, ids), adding)
  {
    var after := Pruned(h.parents, rows, ids);
    forall d: RoleId, a: RoleId | d in h.roles && d !in adding && Supported(h.parents, after, d, a)
      ensures (d, a) in after
    {
      assert Supported(h.parents, rows, d, a);
    }
  }

  lemma PruneJustifies(h: Hierarchy, rows: set<Row>, ids: set<RoleId>, removing: set<RoleId>)
    requires JustifiedOutside(h, rows, removing)
    ensures JustifiedOutside(h, Pruned(h.parents, rows, ids), removing - ids + ChildrenOf(h.parents, ids))
    ensures Pruned(h.parents, rows, ids) == rows ==> JustifiedOutside(h, rows, removing - ids)
  {
    var after := Pruned(h.parents, rows, ids);
    forall d: RoleId, a: RoleId | (d, a) in after && d !in removing - ids + ChildrenOf(h.parents, ids) && d != a
      ensures Supported(h.parents, after, d, a)
    {
      assert Supported(h.parents, rows, d, a);
      var l :| l in h.parents && l.0 == d && (l.1, a) in rows;
      assert (l.1, a) in after;
    }
  }

  lemma PruneKeepsSelfSupporting(parents: set<Link>, before: set<Row>, rows: set<Row>, ids: set<RoleId>)
    requires KeepsSelfSupporting(parents, before, rows)
    ensures KeepsSelfSupporting(parents, before, Pruned(parents, rows, ids))
  {
    forall s: set<Row> | s <= before && SelfSupporting(parents, s) ensures s <= Pruned(parents, rows, ids) {
      forall r | r in s ensures r in Pruned(parents, rows, ids) {
        assert (r.0, r.1) in s;
        assert Supported(parents, s, r.0, r.1);
      }
    }
  }

  lemma PruneStep(h: Hierarchy, ever: set<Link>, before: set<Row>, rows: set<Row>, ids: set<RoleId>,
                  adding: set<RoleId>, removing: set<RoleId>)
    requires Sweep(h, ever, before, rows, adding, removing)
    ensures Sweep(h, ever, before, Pruned(h.parents, rows, ids), adding, removing - ids + ChildrenOf(h.parents, ids))
    ensures Pruned(h.parents, rows, ids) == rows ==> JustifiedOutside(h, rows, removing - ids)
  {
    PruneKeepsClosed(h, rows, ids, adding);
    PruneJustifies(h, rows, ids, removing);
    PruneKeepsSelfSupporting(h.parents, before, rows, ids);
  }

  lemma ExtendCloses(h: Hierarchy, rows: set<Row>, ids: set<RoleId>, adding: set<RoleId>)
    requires ClosedOutside(h, rows, adding)
    ensures ClosedOutside(h, Extended(h, rows, ids), adding - ids + ChildrenOf(h.parents, ids))
    ensures Extended(h, rows, ids) == rows ==> ClosedOutside(h, rows, adding - ids)
  {
    var after := Extended(h, rows, ids);
    forall d | d in h.roles && d !in adding - ids ensures (d, d) in after {
      InheritedExactly(h, rows, ids, d, d);
    }
    forall d: RoleId, a: RoleId | d in h.roles && d !in adding - ids && Supported(h.parents, rows, d, a)
      ensures (d, a) in after
    {
      InheritedExactly(h, rows, ids, d, a);
    }
    forall d: RoleId, a: RoleId | d !in ChildrenOf(h.parents, ids) && Supported(h.parents, after, d, a)
      ensures Supported(h.parents, rows, d, a)
    {
      var l :| l in h.parents && l.0 == d && (l.1, a) in after;
      InheritedExactly(h, rows, ids, l.1, a);
    }
  }

  lemma ExtendKeepsJustified(h: Hierarchy, rows: set<Row>, ids: set<RoleId>, removing: set<RoleId>)
    requires JustifiedOutside(h, rows, removing)
    ensures JustifiedOutside(h, Extended(h, rows, ids), removing)
  {
    var after := Extended(h, rows, ids);
    forall d: RoleId, a: RoleId | (d, a) in after && d !in removing && d != a
      ensures Supported(h.parents, after, d, a)
    {
      InheritedExactly(h, rows, ids, d, a);
      assert Supported(h.parents, rows, d, a);
    }
  }

  lemma ExtendKeepsWithin(h: Hierarchy, ever: set<Link>, rows: set<Row>, ids: set<RoleId>)
    requires h.Valid() && h.parents <= ever && Within(h.roles, ever, rows)
    ensures Within(h.roles, ever, Extended(h, rows, ids))
  {
    forall d: RoleId, a: RoleId | (d, a) in Inherited(h, rows, ids)
      ensures d in h.roles && a in h.roles && IsAncestor(ever, d, a)
    {
      InheritedExactly(h, rows, ids, d, a);
      if d != a {
        var l :| l in h.parents && l.0 == d && (l.1, a) in rows;
        assert l == (d, l.1);
        ClimbOne(ever, d, l.1, a);
      }
    }
  }

  lemma ExtendStep(h: Hierarchy, ever: set<Link>, before: set<Row>, rows: set<Row>, ids: set<RoleId>,
                   adding: set<RoleId>, removing: set<RoleId>)
    requires h.Valid() && h.parents <= ever && Sweep(h, ever, before, rows, adding, removing)
    ensures Sweep(h, ever, before, Extended(h, rows, ids), adding - ids + ChildrenOf(h.parents, ids), removing)
    ensures Extended(h, rows, ids) == rows ==> ClosedOutside(h, rows, adding - ids)
  {
    ExtendCloses(h, rows, ids, adding);
    ExtendKeepsJustified(h, rows, ids, removing);
    ExtendKeepsWithin(h, ever, rows, ids);
  }

  // ---------------------------------------------------------------- lists of roles

  /** The roles still to be named after the first i, and the children of those already named. */
  ghost function Frontier(parents: set<Link>, ids: seq<RoleId>, i: nat): set<RoleId>
    requires i <= |ids|
  {
    Elements(ids[i..]) + ChildrenOf(parents, Elements(ids[..i]))
  }

  lemma FrontierStep(parents: set<Link>, ids: seq<RoleId>, i: nat, j: nat)
    requires i <= j <= |ids|
    ensures var chunk := Elements(ids[i..j]);
            && Frontier(parents, ids, i) - chunk + ChildrenOf(parents, chunk) <= Frontier(parents, ids, j)
            && Elements(ids[i..]) - chunk <= Elements(ids[j..])
  {
    assert ids[i..] == ids[i..j] + ids[j..];
    assert ids[..j] == ids[..i] + ids[i..j];
  }

  lemma FrontierEnds(parents: set<Link>, ids: seq<RoleId>)
    ensures Frontier(parents, ids, 0) == Elements(ids) && Elements(ids[0..]) == Elements(ids)
    ensures Frontier(parents, ids, |ids|) == ChildrenOf(parents, Elements(ids)) && Elements(ids[|ids|..]) == {}
  {
    assert ids[..|ids|] == ids && ids[0..] == ids;
  }

  lemma WiderSweep(h: Hierarchy, ever: set<Link>, before: set<Row>, rows: set<Row>,
                   adding: set<RoleId>, removing: set<RoleId>, adding': set<RoleId>, removing': set<RoleId>)
    requires Sweep(h, ever, before, rows, adding, removing) && adding <= adding' && removing <= removing'
    ensures Sweep(h, ever, before, rows, adding', removing')
  {
  }

  /** The roles k links below the given ones. */
  ghost function Descend(parents: set<Link>, ids: set<RoleId>, k: nat): set<RoleId> {
    if k == 0 then ids else ChildrenOf(parents, Descend(parents, ids, k - 1))
  }

  lemma DescendMore(parents: set<Link>, adding: set<RoleId>, removing: set<RoleId>, start: set<RoleId>, k: nat)
    requires adding + removing == Descend(parents, start, k)
    ensures ChildrenOf(parents, adding) + ChildrenOf(parents, removing) == Descend(parents, start, k + 1)
  {
    assert ChildrenOf(parents, adding) + ChildrenOf(parents, removing) == ChildrenOf(parents, adding + removing);
  }

  /** After k sweeps from the roles `start`. */
  ghost predicate Sweeping(h: Hierarchy, ever: set<Link>, before: set<Row>, rows: set<Row>,
                           adding: seq<RoleId>, removing: seq<RoleId>, start: set<RoleId>, k: nat, done: bool)
  {
    && Sweep(h, ever, before, rows, Elements(adding), Elements(removing))
    && Elements(adding) + Elements(removing) == Descend(h.parents, start, k)
    && (done ==> Settled(h, rows))
  }

  /** Some role is more than k links below the given ones. */
  ghost predicate Deeper(parents: set<Link>, ids: set<RoleId>, k: nat) {
    Descend(parents, ids, k + 1) != {}
  }

  lemma SomeLeft(parents: set<Link>, adding: seq<RoleId>, removing: seq<RoleId>, start: set<RoleId>, k: nat)
    requires Elements(adding) + Elements(removing) == Descend(parents, start, k + 1) && (adding != [] || removing != [])
    ensures Deeper(parents, start, k)
  {
    assert (if adding != [] then adding[0] else removing[0]) in Descend(parents, start, k + 1);
  }

  /** What a rebuild leaves. */
  ghost predicate Rebuilt(h: Hierarchy, ever: set<Link>, before: set<Row>, rows: set<Row>) {
    Settled(h, rows) && Within(h.roles, ever, rows) && KeepsSelfSupporting(h.parents, before, rows)
  }

  lemma SweepingEnds(h: Hierarchy, ever: set<Link>, before: set<Row>, rows: set<Row>,
                     adding: seq<RoleId>, removing: seq<RoleId>, start: set<RoleId>, k: nat, done: bool)
    requires Sweeping(h, ever, before, rows, adding, removing, start, k, done) &&
             (done || (adding == [] && removing == []))
    ensures Rebuilt(h, ever, before, rows)
  {
    if !done {
      assert Elements(adding) == {} && Elements(removing) == {};
    }
  }

  /** The ids of a result set, in some order. */
  method ListOf(ids: set<RoleId>) returns (list: seq<RoleId>)
    ensures Elements(list) == ids
  {
    list := [];
    var todo := ids;
    while todo != {}
      invariant forall d :: d in ids <==> d in list || d in todo
      decreases todo
    {
      var d :| d in todo;
      list := list + [d];
      todo := todo - {d};
    }
  }

  lemma WiderJustified(h: Hierarchy, rows: set<Row>, few: set<RoleId>, many: set<RoleId>)
    requires JustifiedOutside(h, rows, few) && few <= many
    ensures JustifiedOutside(h, rows, many)
  {
  }

  lemma WiderClosed(h: Hierarchy, rows: set<Row>, few: set<RoleId>, many: set<RoleId>)
    requires ClosedOutside(h, rows, few) && few <= many
    ensures ClosedOutside(h, rows, many)
  {
  }

  /** One more chunk of a deleting pass. */
  lemma PruneChunk(h: Hierarchy, ever: set<Link>, before: set<Row>, rows: set<Row>, adding: set<RoleId>,
                   ids: seq<RoleId>, i: nat, j: nat)
    requires i <= j <= |ids| && Sweep(h, ever, before, rows, adding, Frontier(h.parents, ids, i))
    ensures var after := Pruned(h.parents, rows, Elements(ids[i..j]));
            && Sweep(h, ever, before, after, adding, Frontier(h.parents, ids, j))
            && (after == rows && JustifiedOutside(h, rows, Elements(ids[i..])) ==>
                JustifiedOutside(h, rows, Elements(ids[j..])))
  {
    var chunk := Elements(ids[i..j]);
    FrontierStep(h.parents, ids, i, j);
    PruneStep(h, ever, before, rows, chunk, adding, Frontier(h.parents, ids, i));
    WiderSweep(h, ever, before, Pruned(h.parents, rows, chunk), adding,
               Frontier(h.parents, ids, i) - chunk + ChildrenOf(h.parents, chunk), adding, Frontier(h.parents, ids, j));
    if Pruned(h.parents, rows, chunk) == rows && JustifiedOutside(h, rows, Elements(ids[i..])) {
      PruneJustifies(h, rows, chunk, Elements(ids[i..]));
      WiderJustified(h, rows, Elements(ids[i..]) - chunk, Elements(ids[j..]));
    }
  }

  /** One more chunk of an inserting pass. */
  lemma ExtendChunk(h: Hierarchy, ever: set<Link>, before: set<Row>, rows: set<Row>, removing: set<RoleId>,
                    ids: seq<RoleId>, i: nat, j: nat)
    requires h.Valid() && h.parents <= ever
    requires i <= j <= |ids| && Sweep(h, ever, before, rows, Frontier(h.parents, ids, i), removing)
    ensures var after := Extended(h, rows, Elements(ids[i..j]));
            && Sweep(h, ever, before, after, Frontier(h.parents, ids, j), removing)
            && (after == rows && ClosedOutside(h, rows, Elements(ids[i..])) ==>
                ClosedOutside(h, rows, Elements(ids[j..])))
  {
    var chunk := Elements(ids[i..j]);
    FrontierStep(h.parents, ids, i, j);
    ExtendStep(h, ever, before, rows, chunk, Frontier(h.parents, ids, i), removing);
    WiderSweep(h, ever, before, Extended(h, rows, chunk),
               Frontier(h.parents, ids, i) - chunk + ChildrenOf(h.parents, chunk), removing,
               Frontier(h.parents, ids, j), removing);
    if Extended(h, rows, chunk) == rows && ClosedOutside(h, rows, Elements(ids[i..])) {
      ExtendCloses(h, rows, chunk, Elements(ids[i..]));
      WiderClosed(h, rows, Elements(ids[i..]) - chunk, Elements(ids[j..]));
    }
  }

  lemma SweepingStops(h: Hierarchy, ever: set<Link>, before: set<Row>, rows: set<Row>,
                      adding: seq<RoleId>, removing: seq<RoleId>, start: set<RoleId>, k: nat, done: bool, limit: nat)
    requires Sweeping(h, ever, before, rows, adding, removing, start, k, done)
    requires done || (adding == [] && removing == []) || k == limit + 1
    ensures if done || (adding == [] && removing == []) then Rebuilt(h, ever, before, rows)
            else Deeper(h.parents, start, limit)
  {
    if done || (adding == [] && removing == []) {
      SweepingEnds(h, ever, before, rows, adding, removing, start, k, done);
    } else {
      SomeLeft(h.parents, adding, removing, start, limit);
    }
  }

  // ---------------------------------------------------------------- how many sweeps additions take

  /** The pass has given a an additional role. */
  ghost predicate NewFor(before: set<Row>, rows: set<Row>, a: RoleId) {
    exists d: RoleId :: (d, a) in rows && (d, a) !in before
  }

  /** Before the pass one of these roles lacked a, though a parent had it. */
  ghost predicate Owed(h: Hierarchy, before: set<Row>, ids: set<RoleId>, a: RoleId) {
    exists d: RoleId :: d in ids && d in h.roles && (d, a) !in before && (d == a || Supported(h.parents, before, d, a))
  }

  /** The pass has given the roles `ids` what their parents had before it; and if it has given a to anyone, then a was
      owed before. */
  ghost predicate Passed(h: Hierarchy, before: set<Row>, rows: set<Row>, ids: set<RoleId>, all: set<RoleId>) {
    && before <= rows
    && (forall d: RoleId, a: RoleId :: d in ids && d in h.roles && (d == a || Supported(h.parents, before, d, a)) ==>
        (d, a) in rows)
    && (forall a: RoleId :: NewFor(before, rows, a) ==> Owed(h, before, all, a))
  }

  lemma PassStarts(h: Hierarchy, rows: set<Row>, all: set<RoleId>)
    ensures Passed(h, rows, rows, {}, all)
  {
  }

  lemma SupportedMore(parents: set<Link>, few: set<Row>, many: set<Row>, d: RoleId, a: RoleId)
    requires few <= many && Supported(parents, few, d, a)
    ensures Supported(parents, many, d, a)
  {
    var l :| l in parents && l.0 == d && (l.1, a) in few;
    assert (l.1, a) in many;
  }

  lemma PassChunk(h: Hierarchy, before: set<Row>, rows: set<Row>, ids: set<RoleId>, chunk: set<RoleId>,
                  all: set<RoleId>)
    requires Passed(h, before, rows, ids, all) && chunk <= all
    ensures Passed(h, before, Extended(h, rows, chunk), ids + chunk, all)
  {
    var after := Extended(h, rows, chunk);
    forall d: RoleId, a: RoleId |
      d in ids + chunk && d in h.roles && (d == a || Supported(h.parents, before, d, a))
      ensures (d, a) in after
    {
      if d in chunk {
        if d != a {
          SupportedMore(h.parents, before, rows, d, a);
        }
        InheritedExactly(h, rows, chunk, d, a);
      }
    }
    forall a: RoleId | NewFor(before, after, a) ensures Owed(h, before, all, a) {
      ChunkOwes(h, before, rows, ids, chunk, all, a);
    }
  }

  lemma PassNext(h: Hierarchy, before: set<Row>, rows: set<Row>, ids: seq<RoleId>, i: nat, j: nat)
    requires i <= j <= |ids| && Passed(h, before, rows, Elements(ids[..i]), Elements(ids))
    ensures Passed(h, before, Extended(h, rows, Elements(ids[i..j])), Elements(ids[..j]), Elements(ids))
  {
    PassChunk(h, before, rows, Elements(ids[..i]), Elements(ids[i..j]), Elements(ids));
    assert ids[..j] == ids[..i] + ids[i..j];
    assert Elements(ids[..j]) == Elements(ids[..i]) + Elements(ids[i..j]);
  }

  lemma ChunkOwes(h: Hierarchy, before: set<Row>, rows: set<Row>, ids: set<RoleId>, chunk: set<RoleId>,
                  all: set<RoleId>, a: RoleId)
    requires Passed(h, before, rows, ids, all) && chunk <= all && NewFor(before, Extended(h, rows, chunk), a)
    ensures Owed(h, before, all, a)
  {
    var d: RoleId :| (d, a) in Extended(h, rows, chunk) && (d, a) !in before;
    if (d, a) in rows {
      assert NewFor(before, rows, a);
    } else {
      InheritedExactly(h, rows, chunk, d, a);
      if d != a {
        var l :| l in h.parents && l.0 == d && (l.1, a) in rows;
        if (l.1, a) in before {
          assert Supported(h.parents, before, d, a);
        } else {
          assert NewFor(before, rows, a);
        }
      }
    }
  }

  /** The roles that have the ancestor a. */
  function Holders(h: Hierarchy, rows: set<Row>, a: RoleId): set<RoleId> {
    set d | d in h.roles && (d, a) in rows
  }

  /** The pass that led from `prev`, over the roles `ids`, was at least the k-th to give away whatever it gave. */
  ghost predicate Pace(h: Hierarchy, prev: set<Row>, ids: set<RoleId>, rows: set<Row>, k: nat) {
    && ClosedOutside(h, prev, ids) && Passed(h, prev, rows, ids, ids)
    && forall a: RoleId :: NewFor(prev, rows, a) ==> |Holders(h, rows, a)| >= k
  }

  /** What a pass gives away, the pass before it gave away too: everything else had been passed on already. */
  lemma OwedWasNew(h: Hierarchy, prev: set<Row>, ids: set<RoleId>, rows: set<Row>, next: set<RoleId>, a: RoleId)
    requires ClosedOutside(h, prev, ids) && Passed(h, prev, rows, ids, ids) && Owed(h, rows, next, a)
    ensures NewFor(prev, rows, a)
  {
    var d: RoleId :| d in next && d in h.roles && (d, a) !in rows && (d == a || Supported(h.parents, rows, d, a));
    assert d != a || d in ids || (d, d) in prev;
    var l :| l in h.parents && l.0 == d && (l.1, a) in rows;
    if (l.1, a) in prev {
      assert Supported(h.parents, prev, d, a);
      assert false;
    }
  }

  lemma PaceStep(h: Hierarchy, prev: set<Row>, ids: set<RoleId>, rows: set<Row>, next: set<RoleId>, after: set<Row>,
                 k: nat)
    requires k > 0 ==> Pace(h, prev, ids, rows, k)
    requires ClosedOutside(h, rows, next) && Passed(h, rows, after, next, next)
    requires forall d: RoleId, a: RoleId :: (d, a) in after ==> d in h.roles
    ensures Pace(h, rows, next, after, k + 1)
  {
    forall a: RoleId | NewFor(rows, after, a) ensures |Holders(h, after, a)| >= k + 1 {
      if k > 0 {
        OwedWasNew(h, prev, ids, rows, next, a);
      }
      OneMoreHolder(h, rows, after, a);
    }
  }

  lemma OneMoreHolder(h: Hierarchy, rows: set<Row>, after: set<Row>, a: RoleId)
    requires rows <= after && NewFor(rows, after, a) && forall d: RoleId :: (d, a) in after ==> d in h.roles
    ensures |Holders(h, after, a)| >= |Holders(h, rows, a)| + 1
  {
    var d: RoleId :| (d, a) in after && (d, a) !in rows;
    var more := Holders(h, after, a) - Holders(h, rows, a);
    assert d in more;
    assert Holders(h, after, a) == Holders(h, rows, a) + more;
    assert more == {d} + (more - {d});
  }

  /** After k sweeps of which none removes anything. */
  ghost predicate Pacing(h: Hierarchy, prev: set<Row>, ids: set<RoleId>, rows: set<Row>, removing: seq<RoleId>, k: nat,
                         done: bool)
  {
    removing == [] && (k > 0 ==> Pace(h, prev, ids, rows, k) && (done || rows != prev))
  }

  // ---------------------------------------------------------------- how many sweeps removals take

  /** The pass has taken a away from some role. */
  ghost predicate Dropped(before: set<Row>, rows: set<Row>, a: RoleId) {
    exists d: RoleId :: (d, a) in before && (d, a) !in rows
  }

  /** Before the pass one of these roles had a, though no parent did. */
  ghost predicate Baseless(h: Hierarchy, before: set<Row>, ids: set<RoleId>, a: RoleId) {
    exists d: RoleId :: d in ids && d != a && (d, a) in before && !Supported(h.parents, before, d, a)
  }

  /** The pass has left the roles `ids` with nothing that no parent had before it; if it has taken a from anyone, then
      a was baseless before. */
  ghost predicate Cleared(h: Hierarchy, before: set<Row>, rows: set<Row>, ids: set<RoleId>, all: set<RoleId>) {
    && rows <= before
    && (forall d: RoleId, a: RoleId :: d in ids && d != a && (d, a) in rows ==> Supported(h.parents, before, d, a))
    && (forall a: RoleId :: Dropped(before, rows, a) ==> Baseless(h, before, all, a))
  }

  lemma ClearStarts(h: Hierarchy, rows: set<Row>, all: set<RoleId>)
    ensures Cleared(h, rows, rows, {}, all)
  {
  }

  lemma ClearChunk(h: Hierarchy, before: set<Row>, rows: set<Row>, ids: set<RoleId>, chunk: set<RoleId>,
                   all: set<RoleId>)
    requires Cleared(h, before, rows, ids, all) && chunk <= all
    ensures Cleared(h, before, Pruned(h.parents, rows, chunk), ids + chunk, all)
  {
    var after := Pruned(h.parents, rows, chunk);
    forall d: RoleId, a: RoleId | d in ids + chunk && d != a && (d, a) in after
      ensures Supported(h.parents, before, d, a)
    {
      if d in chunk {
        SupportedMore(h.parents, rows, before, d, a);
      }
    }
    forall a: RoleId | Dropped(before, after, a) ensures Baseless(h, before, all, a) {
      ChunkBaseless(h, before, rows, ids, chunk, all, a);
    }
  }

  lemma ChunkBaseless(h: Hierarchy, before: set<Row>, rows: set<Row>, ids: set<RoleId>, chunk: set<RoleId>,
                      all: set<RoleId>, a: RoleId)
    requires Cleared(h, before, rows, ids, all) && chunk <= all && Dropped(before, Pruned(h.parents, rows, chunk), a)
    ensures Baseless(h, before, all, a)
  {
    var d: RoleId :| (d, a) in before && (d, a) !in Pruned(h.parents, rows, chunk);
    if (d, a) !in rows {
      assert Dropped(before, rows, a);
    } else if Supported(h.parents, before, d, a) {
      var l :| l in h.parents && l.0 == d && (l.1, a) in before;
      assert (l.1, a) !in rows;
      assert Dropped(before, rows, a);
    }
  }

  lemma ClearNext(h: Hierarchy, before: set<Row>, rows: set<Row>, ids: seq<RoleId>, i: nat, j: nat)
    requires i <= j <= |ids| && Cleared(h, before, rows, Elements(ids[..i]), Elements(ids))
    ensures Cleared(h, before, Pruned(h.parents, rows, Elements(ids[i..j])), Elements(ids[..j]), Elements(ids))
  {
    ClearChunk(h, before, rows, Elements(ids[..i]), Elements(ids[i..j]), Elements(ids));
    assert ids[..j] == ids[..i] + ids[i..j];
    assert Elements(ids[..j]) == Elements(ids[..i]) + Elements(ids[i..j]);
  }

  /** The pass that led from `prev`, over the roles `ids`, was at least the k-th to take away whatever it took. */
  ghost predicate Ebb(h: Hierarchy, first: set<Row>, prev: set<Row>, ids: set<RoleId>, rows: set<Row>, k: nat) {
    && JustifiedOutside(h, prev, ids) && Cleared(h, prev, rows, ids, ids)
    && forall a: RoleId :: Dropped(prev, rows, a) ==> |Holders(h, rows, a)| + k <= |Holders(h, first, a)|
  }

  /** What a pass takes away, the pass before it took away too: everything else still had a parent to rest on. */
  lemma BaselessWasDropped(h: Hierarchy, prev: set<Row>, ids: set<RoleId>, rows: set<Row>, next: set<RoleId>, a: RoleId)
    requires JustifiedOutside(h, prev, ids) && Cleared(h, prev, rows, ids, ids) && Baseless(h, rows, next, a)
    ensures Dropped(prev, rows, a)
  {
    var d: RoleId :| d in next && d != a && (d, a) in rows && !Supported(h.parents, rows, d, a);
    assert Supported(h.parents, prev, d, a);
    var l :| l in h.parents && l.0 == d && (l.1, a) in prev;
    assert (l.1, a) !in rows;
  }

  lemma EbbStep(h: Hierarchy, first: set<Row>, prev: set<Row>, ids: set<RoleId>, rows: set<Row>, next: set<RoleId>,
                after: set<Row>, k: nat)
    requires k > 0 ==> Ebb(h, first, prev, ids, rows, k)
    requires rows <= first && JustifiedOutside(h, rows, next) && Cleared(h, rows, after, next, next)
    requires forall d: RoleId, a: RoleId :: (d, a) in rows ==> d in h.roles
    ensures Ebb(h, first, rows, next, after, k + 1)
  {
    forall a: RoleId | Dropped(rows, after, a) ensures |Holders(h, after, a)| + k + 1 <= |Holders(h, first, a)| {
      if k > 0 {
        BaselessWasDropped(h, prev, ids, rows, next, a);
      } else {
        FewerRoles(Holders(h, rows, a), Holders(h, first, a));
      }
      OneHolderLess(h, rows, after, a);
    }
  }

  lemma OneHolderLess(h: Hierarchy, rows: set<Row>, after: set<Row>, a: RoleId)
    requires after <= rows && Dropped(rows, after, a) && forall d: RoleId, a: RoleId :: (d, a) in rows ==> d in h.roles
    ensures |Holders(h, after, a)| + 1 <= |Holders(h, rows, a)|
  {
    var d: RoleId :| (d, a) in rows && (d, a) !in after;
    var lost := Holders(h, rows, a) - Holders(h, after, a);
    assert d in lost;
    assert Holders(h, rows, a) == Holders(h, after, a) + lost;
    assert lost == {d} + (lost - {d});
  }

  lemma EbbEnds(h: Hierarchy, first: set<Row>, prev: set<Row>, ids: set<RoleId>, rows: set<Row>, k: nat)
    requires Ebb(h, first, prev, ids, rows, k) && rows != prev
    ensures |h.roles| >= k
  {
    var r :| r in prev && r !in rows;
    assert (r.0, r.1) == r && Dropped(prev, rows, r.1);
    FewerRoles(Holders(h, first, r.1), h.roles);
  }

  /** After k sweeps of which none adds anything. */
  ghost predicate Ebbing(h: Hierarchy, first: set<Row>, prev: set<Row>, ids: set<RoleId>, rows: set<Row>,
                         adding: seq<RoleId>, k: nat, done: bool)
  {
    adding == [] && rows <= first && (k > 0 ==> Ebb(h, first, prev, ids, rows, k) && (done || rows != prev))
  }

  // ---------------------------------------------------------------- the course of a rebuild

  /** What stays the same throughout a rebuild; whether there is nothing to add, or nothing to remove. */
  datatype Plan = Plan(h: Hierarchy, ever: set<Link>, first: set<Row>, start: set<RoleId>, onlyRemoves: bool,
                       onlyAdds: bool)

  /** The rows before the last sweep, and the roles it added to and removed from. */
  datatype LastSweep = LastSweep(rows: set<Row>, adding: set<RoleId>, removing: set<RoleId>)

  ghost predicate Course(plan: Plan, last: LastSweep, rows: set<Row>, adding: seq<RoleId>, removing: seq<RoleId>,
                         k: nat, done: bool)
  {
    && Sweeping(plan.h, plan.ever, plan.first, rows, adding, removing, plan.start, k, done)
    && (plan.onlyAdds ==> Pacing(plan.h, last.rows, last.adding, rows, removing, k, done))
    && (plan.onlyRemoves ==> Ebbing(plan.h, plan.first, last.rows, last.removing, rows, adding, k, done))
  }

  lemma CourseEnds(plan: Plan, last: LastSweep, rows: set<Row>, adding: seq<RoleId>, removing: seq<RoleId>, k: nat,
                   done: bool, limit: nat)
    requires Course(plan, last, rows, adding, removing, k, done)
    requires done || (adding == [] && removing == []) || k == limit + 1
    ensures plan.onlyRemoves ==> rows <= plan.first
    ensures if done || (adding == [] && removing == []) then Rebuilt(plan.h, plan.ever, plan.first, rows)
            else Deeper(plan.h.parents, plan.start, limit) &&
                 (plan.onlyAdds || plan.onlyRemoves ==> |plan.h.roles| > limit)
  {
    SweepingStops(plan.h, plan.ever, plan.first, rows, adding, removing, plan.start, k, done, limit);
    if !(done || (adding == [] && removing == [])) && plan.onlyAdds {
      PaceEnds(plan.h, last.rows, last.adding, rows, k);
    }
    if !(done || (adding == [] && removing == [])) && plan.onlyRemoves {
      EbbEnds(plan.h, plan.first, last.rows, last.removing, rows, k);
    }
  }

  lemma NoneBelowNone(parents: set<Link>, ids: seq<RoleId>, children: seq<RoleId>)
    requires Elements(children) == ChildrenOf(parents, Elements(ids))
    ensures ids == [] ==> children == []
  {
    assert children != [] ==> children[0] in Elements(children);
  }

  lemma SweepFacts(h: Hierarchy, ever: set<Link>, before: set<Row>, rows: set<Row>,
                   adding: seq<RoleId>, removing: seq<RoleId>, start: set<RoleId>, k: nat, done: bool)
    requires Sweeping(h, ever, before, rows, adding, removing, start, k, done)
    ensures ClosedOutside(h, rows, Elements(adding)) && JustifiedOutside(h, rows, Elements(removing))
    ensures forall d: RoleId, a: RoleId :: (d, a) in rows ==> d in h.roles
  {
  }

  lemma PaceEnds(h: Hierarchy, prev: set<Row>, ids: set<RoleId>, rows: set<Row>, k: nat)
    requires Pace(h, prev, ids, rows, k) && rows != prev
    ensures |h.roles| >= k
  {
    var r :| r in rows && r !in prev;
    assert (r.0, r.1) == r && NewFor(prev, rows, r.1);
    FewerRoles(Holders(h, rows, r.1), h.roles);
  }

  lemma FewerRoles(few: set<RoleId>, many: set<RoleId>)
    requires few <= many
    ensures |few| <= |many|
  {
    assert many == few + (many - few);
  }

  lemma SweepPaces(plan: Plan, last: LastSweep, before: set<Row>, adding: seq<RoleId>, removing: seq<RoleId>,
                   rows: set<Row>, adding': seq<RoleId>, removing': seq<RoleId>, k: nat, done: bool)
    requires plan.onlyAdds && Course(plan, last, before, adding, removing, k, false)
    requires Sweeping(plan.h, plan.ever, plan.first, rows, adding', removing', plan.start, k + 1, done)
    requires removing' == [] && (done || rows != before)
    requires Passed(plan.h, before, rows, Elements(adding), Elements(adding))
    ensures Pacing(plan.h, before, Elements(adding), rows, removing', k + 1, done)
  {
    SweepFacts(plan.h, plan.ever, plan.first, before, adding, removing, plan.start, k, false);
    SweepFacts(plan.h, plan.ever, plan.first, rows, adding', removing', plan.start, k + 1, done);
    PaceStep(plan.h, last.rows, last.adding, before, Elements(adding), rows, k);
  }

  lemma SweepEbbs(plan: Plan, last: LastSweep, before: set<Row>, adding: seq<RoleId>, removing: seq<RoleId>,
                  rows: set<Row>, k: nat, done: bool)
    requires plan.onlyRemoves && Course(plan, last, before, adding, removing, k, false)
    requires done || rows != before
    requires Cleared(plan.h, before, rows, Elements(removing), Elements(removing))
    ensures Ebbing(plan.h, plan.first, before, Elements(removing), rows, [], k + 1, done)
  {
    SweepFacts(plan.h, plan.ever, plan.first, before, adding, removing, plan.start, k, false);
    EbbStep(plan.h, plan.first, last.rows, last.removing, before, Elements(removing), rows, k);
  }

  class AncestorTable {
    var rows: set<Row>

    constructor ()
      ensures rows == {}
    {
      rows := {};
    }

    method DeleteChunk(parents: set<Link>, ids: set<RoleId>) returns (n: nat)
      modifies this
      ensures rows == Pruned(parents, old(rows), ids) && (n == 0 <==> rows == old(rows))
    {
      var kept := Pruned(parents, rows, ids);
      n := |rows - kept|;
      rows := kept;
    }

    method InsertChunk(h: Hierarchy, ids: set<RoleId>) returns (n: nat)
      modifies this
      ensures rows == Extended(h, old(rows), ids) && (n == 0 <==> rows == old(rows))
    {
      var added := Inherited(h, rows, ids) - rows;
      n := |added|;
      rows := rows + added;
    }

    /** The delete statements of one sweep; n counts the rows deleted. */
    method DeleteStale(ids: seq<RoleId>, h: Hierarchy, ghost ever: set<Link>, ghost before: set<Row>,
                       ghost adding: set<RoleId>)
      returns (n: nat)
      requires Sweep(h, ever, before, rows, adding, Elements(ids))
      modifies this
      ensures Sweep(h, ever, before, rows, adding, ChildrenOf(h.parents, Elements(ids)))
      ensures n == 0 ==> rows == old(rows) && JustifiedOutside(h, rows, {})
      ensures (n != 0 ==> rows != old(rows)) && (ids == [] ==> n == 0)
      ensures Cleared(h, old(rows), rows, Elements(ids), Elements(ids))
    {
      n := 0;
      var i := 0;
      FrontierEnds(h.parents, ids);
      ClearStarts(h, rows, Elements(ids));
      assert Elements(ids[..0]) == {};
      while i < |ids|
        invariant 0 <= i <= |ids|
        invariant Sweep(h, ever, before, rows, adding, Frontier(h.parents, ids, i))
        invariant n == 0 ==> rows == old(rows) && JustifiedOutside(h, rows, Elements(ids[i..]))
        invariant (n != 0 ==> rows != old(rows)) && (i == 0 ==> n == 0)
        invariant Cleared(h, old(rows), rows, Elements(ids[..i]), Elements(ids))
      {
        var j := if i + CHUNK_SIZE < |ids| then i + CHUNK_SIZE else |ids|;
        var deleted := DeleteNext(ids, i, j, h, ever, before, adding, old(rows));
        n := n + deleted;
        i := j;
      }
      assert ids[..i] == ids;
    }

    method DeleteNext(ids: seq<RoleId>, i: nat, j: nat, h: Hierarchy, ghost ever: set<Link>, ghost before: set<Row>,
                      ghost adding: set<RoleId>, ghost start: set<Row>)
      returns (n: nat)
      requires i <= j <= |ids| && Sweep(h, ever, before, rows, adding, Frontier(h.parents, ids, i))
      requires Cleared(h, start, rows, Elements(ids[..i]), Elements(ids))
      modifies this
      ensures Sweep(h, ever, before, rows, adding, Frontier(h.parents, ids, j))
      ensures Cleared(h, start, rows, Elements(ids[..j]), Elements(ids))
      ensures rows <= old(rows) && (n == 0 <==> rows == old(rows))
      ensures n == 0 && JustifiedOutside(h, rows, Elements(ids[i..])) ==> JustifiedOutside(h, rows, Elements(ids[j..]))
    {
      PruneChunk(h, ever, before, rows, adding, ids, i, j);
      ClearNext(h, start, rows, ids, i, j);
      n := DeleteChunk(h.parents, Elements(ids[i..j]));
    }

    /** The insert statements of one sweep; n counts the rows inserted. */
    method InsertMissing(ids: seq<RoleId>, h: Hierarchy, ghost ever: set<Link>, ghost before: set<Row>,
                         ghost removing: set<RoleId>)
      returns (n: nat)
      requires h.Valid() && h.parents <= ever && Sweep(h, ever, before, rows, Elements(ids), removing)
      modifies this
      ensures Sweep(h, ever, before, rows, ChildrenOf(h.parents, Elements(ids)), removing)
      ensures n == 0 ==> rows == old(rows) && ClosedOutside(h, rows, {})
      ensures (n != 0 ==> rows != old(rows)) && (ids == [] ==> n == 0)
      ensures Passed(h, old(rows), rows, Elements(ids), Elements(ids))
    {
      n := 0;
      var i := 0;
      FrontierEnds(h.parents, ids);
      PassStarts(h, rows, Elements(ids));
      assert Elements(ids[..0]) == {};
      while i < |ids|
        invariant 0 <= i <= |ids|
        invariant Sweep(h, ever, before, rows, Frontier(h.parents, ids, i), removing)
        invariant n == 0 ==> rows == old(rows) && ClosedOutside(h, rows, Elements(ids[i..]))
        invariant (n != 0 ==> rows != old(rows)) && (i == 0 ==> n == 0)
        invariant Passed(h, old(rows), rows, Elements(ids[..i]), Elements(ids))
      {
        var j := if i + CHUNK_SIZE < |ids| then i + CHUNK_SIZE else |ids|;
        var inserted := InsertNext(ids, i, j, h, ever, before, removing, old(rows));
        n := n + inserted;
        i := j;
      }
      assert ids[..i] == ids;
    }

    method InsertNext(ids: seq<RoleId>, i: nat, j: nat, h: Hierarchy, ghost ever: set<Link>, ghost before: set<Row>,
                      ghost removing: set<RoleId>, ghost start: set<Row>)
      returns (n: nat)
      requires h.Valid() && h.parents <= ever && i <= j <= |ids|
      requires Sweep(h, ever, before, rows, Frontier(h.parents, ids, i), removing)
      requires Passed(h, start, rows, Elements(ids[..i]), Elements(ids))
      modifies this
      ensures Sweep(h, ever, before, rows, Frontier(h.parents, ids, j), removing)
      ensures Passed(h, start, rows, Elements(ids[..j]), Elements(ids))
      ensures old(rows) <= rows && (n == 0 <==> rows == old(rows))
      ensures n == 0 && ClosedOutside(h, rows, Elements(ids[i..])) ==> ClosedOutside(h, rows, Elements(ids[j..]))
    {
      ExtendChunk(h, ever, before, rows, removing, ids, i, j);
      PassNext(h, start, rows, ids, i, j);
      n := InsertChunk(h, Elements(ids[i..j]));
    }

    /** One sweep: delete, insert, and move on to the children unless nothing changed. */
    method SweepOnce(adding: seq<RoleId>, removing: seq<RoleId>, h: Hierarchy, ghost ever: set<Link>,
                     ghost before: set<Row>, ghost start: set<RoleId>, ghost k: nat)
      returns (adding': seq<RoleId>, removing': seq<RoleId>, done: bool)
      requires h.Valid() && h.parents <= ever && Sweeping(h, ever, before, rows, adding, removing, start, k, false)
      modifies this
      ensures Sweeping(h, ever, before, rows, adding', removing', start, k + 1, done)
      ensures removing == [] ==>
                && removing' == [] && (done || rows != old(rows))
                && Passed(h, old(rows), rows, Elements(adding), Elements(adding))
      ensures adding == [] ==>
                && adding' == [] && (done || rows != old(rows))
                && Cleared(h, old(rows), rows, Elements(removing), Elements(removing))
    {
      DescendMore(h.parents, Elements(adding), Elements(removing), start, k);
      done := SweepRows(adding, removing, h, ever, before);
      adding' := ListOf(ChildrenOf(h.parents, Elements(adding)));
      removing' := ListOf(ChildrenOf(h.parents, Elements(removing)));
      NoneBelowNone(h.parents, adding, adding');
      NoneBelowNone(h.parents, removing, removing');
    }

    /** The statements of one sweep. */
    method SweepRows(adding: seq<RoleId>, removing: seq<RoleId>, h: Hierarchy, ghost ever: set<Link>,
                     ghost before: set<Row>)
      returns (done: bool)
      requires h.Valid() && h.parents <= ever && Sweep(h, ever, before, rows, Elements(adding), Elements(removing))
      modifies this
      ensures Sweep(h, ever, before, rows, ChildrenOf(h.parents, Elements(adding)),
                    ChildrenOf(h.parents, Elements(removing)))
      ensures done ==> Settled(h, rows)
      ensures removing == [] ==>
                && (done || rows != old(rows))
                && Passed(h, old(rows), rows, Elements(adding), Elements(adding))
      ensures adding == [] ==>
                && (done || rows != old(rows))
                && Cleared(h, old(rows), rows, Elements(removing), Elements(removing))
    {
      var deleted := DeleteStale(removing, h, ever, before, Elements(adding));
      var inserted := InsertMissing(adding, h, ever, before, ChildrenOf(h.parents, Elements(removing)));
      done := inserted == 0 && deleted == 0;
    }

    /** Sweep down the hierarchy, a layer of children at a time, until a sweep changes nothing or no role is left. */
    method SweepAll(additions: seq<RoleId>, removals: seq<RoleId>, h: Hierarchy, ghost ever: set<Link>,
                    ghost start: set<RoleId>, limit: nat)
      returns (ok: bool)
      requires h.Valid() && h.parents <= ever && Sweeping(h, ever, rows, rows, additions, removals, start, 0, false)
      modifies this
      ensures ok ==> Rebuilt(h, ever, old(rows), rows)
      ensures !Deeper(h.parents, start, limit) ==> ok
      ensures (additions == [] || removals == []) && |h.roles| <= limit ==> ok
      ensures additions == [] ==> rows <= old(rows)
    {
      var adding, removing, sweeps, done := additions, removals, 0, false;
      ghost var plan := Plan(h, ever, rows, start, additions == [], removals == []);
      ghost var last := LastSweep(rows, Elements(additions), Elements(removals));
      while !done && (adding != [] || removing != []) && sweeps <= limit
        invariant sweeps <= limit + 1
        invariant Course(plan, last, rows, adding, removing, sweeps, done)
      {
        adding, removing, done, last := SweepAtPace(adding, removing, h, plan, last, sweeps);
        sweeps := sweeps + 1;
      }
      ok := done || (adding == [] && removing == []);
      CourseEnds(plan, last, rows, adding, removing, sweeps, done, limit);
    }

    method SweepAtPace(adding: seq<RoleId>, removing: seq<RoleId>, h: Hierarchy, ghost plan: Plan,
                       ghost last: LastSweep,
                       ghost k: nat)
      returns (adding': seq<RoleId>, removing': seq<RoleId>, done: bool, ghost last': LastSweep)
      requires plan.h == h && h.Valid() && h.parents <= plan.ever &&
               Course(plan, last, rows, adding, removing, k, false)
      modifies this
      ensures Course(plan, last', rows, adding', removing', k + 1, done)
    {
      last' := LastSweep(rows, Elements(adding), Elements(removing));
      adding', removing', done := SweepOnce(adding, removing, h, plan.ever, plan.first, plan.start, k);
      if plan.onlyAdds {
        SweepPaces(plan, last, last'.rows, adding, removing, rows, adding', removing', k, done);
      }
      if plan.onlyRemoves {
        SweepEbbs(plan, last, last'.rows, adding, removing, rows, k, done);
      }
    }

    /** After too many sweeps the call raises and its transaction is rolled back. */
    method Rebuild(additions: seq<RoleId>, removals: seq<RoleId>, h: Hierarchy, ghost ever: set<Link>)
      returns (ok: bool)
      requires h.Valid() && h.parents <= ever && Within(h.roles, ever, rows)
      requires ClosedOutside(h, rows, Elements(additions)) && JustifiedOutside(h, rows, Elements(removals))
      modifies this
      ensures ok ==> Rebuilt(h, ever, old(rows), rows)
      ensures !ok ==> rows == old(rows)
      ensures !Deeper(h.parents, Elements(additions) + Elements(removals), MAX_SWEEPS) ==> ok
      ensures (additions == [] || removals == []) && |h.roles| <= MAX_SWEEPS ==> ok
      ensures additions == [] ==> rows <= old(rows)
    {
      var saved := rows;
      SweepStarts(h, ever, rows, Elements(additions), Elements(removals));
      ok := SweepAll(additions, removals, h, ever, Elements(additions) + Elements(removals), MAX_SWEEPS);
      if !ok {
        rows := saved;
      }
    }
  }
}
