/** Roles as the application changes them: parents added and removed, roles created and deleted, singly or in a
    batch that puts the rebuilding off to its end. */
module RoleStore {
  import opened Wrappers

  import opened RoleGraph
  import opened RoleAncestors

  function ToParents(role: RoleId, ps: set<RoleId>): set<Link> {
    set p | p in ps :: (role, p)
  }

  function ToChildren(role: RoleId, cs: set<RoleId>): set<Link> {
    set c | c in cs :: (c, role)
  }

  function ParentsOf(parents: set<Link>, role: RoleId): set<RoleId> {
    set l | l in parents && l.0 == role :: l.1
  }

  function NewChildren(parents: set<Link>, role: RoleId, cs: set<RoleId>): set<RoleId> {
    set c | c in cs && (c, role) !in parents
  }

  lemma NewChildrenSuffice(parents: set<Link>, role: RoleId, cs: set<RoleId>)
    ensures forall l :: l in ToChildren(role, cs) ==>
            l.0 in cs && l.1 == role && (l.0 in NewChildren(parents, role, cs) || l in parents)
  {
  }

  /** The links that the calls on a role's parents, and on its children, add or remove. */
  lemma LinksExactly(role: RoleId, others: set<RoleId>, d: RoleId, p: RoleId)
    ensures (d, p) in ToParents(role, others) <==> d == role && p in others
    ensures (d, p) in ToChildren(role, others) <==> d in others && p == role
  {
  }

  /** The hierarchy once some roles are gone, with every link that names one. */
  function Without(h: Hierarchy, gone: set<RoleId>): Hierarchy {
    Hierarchy(h.roles - gone, set l | l in h.parents && l.0 !in gone && l.1 !in gone)
  }

  /** What holds of the table at all times: the roles in `adding` may miss rows, those in `removing` may have
      rows they should not. */
  ghost predicate Consistent(h: Hierarchy, ever: set<Link>, rows: set<Row>, adding: set<RoleId>,
                             removing: set<RoleId>) {
    && h.Valid() && h.parents <= ever && Within(h.roles, ever, rows)
    && ClosedOutside(h, rows, adding) && JustifiedOutside(h, rows, removing)
  }

  lemma MoreLinksConsistent(h: Hierarchy, ever: set<Link>, rows: set<Row>, adding: set<RoleId>, removing: set<RoleId>,
                            added: set<Link>, children: set<RoleId>)
    requires Consistent(h, ever, rows, adding, removing)
    requires forall l :: l in added ==> l.0 in h.roles && l.1 in h.roles && (l.0 in children || l in h.parents)
    ensures Consistent(h.(parents := h.parents + added), ever + added, rows, adding + children, removing)
  {
    var h1 := h.(parents := h.parents + added);
    forall d: RoleId, a: RoleId | (d, a) in rows ensures IsAncestor(ever + added, d, a) {
      MoreAncestors(ever, ever + added, d, a);
    }
    forall d: RoleId, a: RoleId | d !in children && Supported(h1.parents, rows, d, a)
      ensures Supported(h.parents, rows, d, a)
    {
      var l :| l in h1.parents && l.0 == d && (l.1, a) in rows;
      assert l in h.parents;
    }
    forall d: RoleId, a: RoleId | Supported(h.parents, rows, d, a) ensures Supported(h1.parents, rows, d, a) {
      var l :| l in h.parents && l.0 == d && (l.1, a) in rows;
      assert l in h1.parents;
    }
  }

  lemma FewerLinksConsistent(h: Hierarchy, ever: set<Link>, rows: set<Row>, adding: set<RoleId>, removing: set<RoleId>,
                             removed: set<Link>, children: set<RoleId>)
    requires Consistent(h, ever, rows, adding, removing)
    requires forall l :: l in removed ==> l.0 in children
    ensures Consistent(h.(parents := h.parents - removed), ever, rows, adding, removing + children)
  {
    var h1 := h.(parents := h.parents - removed);
    forall d: RoleId, a: RoleId | Supported(h1.parents, rows, d, a) ensures Supported(h.parents, rows, d, a) {
    }
    forall d: RoleId, a: RoleId | d !in children && Supported(h.parents, rows, d, a)
      ensures Supported(h1.parents, rows, d, a)
    {
      var l :| l in h.parents && l.0 == d && (l.1, a) in rows;
      assert l in h1.parents;
    }
  }

  lemma NewRoleConsistent(h: Hierarchy, ever: set<Link>, rows: set<Row>, adding: set<RoleId>, removing: set<RoleId>,
                          role: RoleId)
    requires Consistent(h, ever, rows, adding, removing)
    ensures Consistent(h.(roles := h.roles + {role}), ever, rows, adding + {role}, removing)
  {
  }

  lemma DeletedConsistent(h: Hierarchy, ever: set<Link>, rows: set<Row>, adding: set<RoleId>, removing: set<RoleId>,
                          gone: set<RoleId>)
    requires Consistent(h, ever, rows, adding, removing)
    ensures var h1 := Without(h, gone);
            Consistent(h1, ever, Cascade(rows, h1.roles), adding, removing + ChildrenOf(h.parents, gone))
  {
    var h1 := Without(h, gone);
    var after := Cascade(rows, h1.roles);
    forall d: RoleId, a: RoleId | d in h1.roles && d !in adding && Supported(h1.parents, after, d, a)
      ensures (d, a) in after
    {
      var l :| l in h1.parents && l.0 == d && (l.1, a) in after;
      assert Supported(h.parents, rows, d, a);
    }
    forall d: RoleId, a: RoleId | (d, a) in after && d !in removing + ChildrenOf(h.parents, gone) && d != a
      ensures Supported(h1.parents, after, d, a)
    {
      assert Supported(h.parents, rows, d, a);
      var l :| l in h.parents && l.0 == d && (l.1, a) in rows;
      assert (l.1, a) in after && l in h1.parents;
    }
  }

  /** With nothing pending, the table is exact unless a loop has lost an ancestor since it last was. */
  lemma ConsistentIsExact(h: Hierarchy, ever: set<Link>, rows: set<Row>)
    requires Consistent(h, ever, rows, {}, {}) && LoopsKeep(h, ever)
    ensures Exact(h, rows)
  {
    SettledIsExact(h, ever, rows);
  }

  lemma SameRows(h: Hierarchy, a: set<Row>, b: set<Row>)
    requires Exact(h, a) && Exact(h, b)
    ensures a == b
  {
    forall r | r in a ensures r in b {
      assert (r.0, r.1) in a;
    }
    forall r | r in b ensures r in a {
      assert (r.0, r.1) in b;
    }
  }

  /** No history matters once there are no loops: what an earlier loop left behind has been cleared. */
  lemma ConsistentWithoutLoops(h: Hierarchy, ever: set<Link>, rows: set<Row>)
    requires Consistent(h, ever, rows, {}, {}) && Acyclic(h.parents)
    ensures Exact(h, rows)
  {
    SettledWithoutLoops(h, ever, rows);
  }

  class RoleTable {
    const table: AncestorTable
    var roles: set<RoleId>
    var parents: set<Link>
    var batching: bool
    var additions: set<RoleId>
    var removals: set<RoleId>
    ghost var ever: set<Link>    // every link since the table was last exact

    function H(): Hierarchy
      reads this
    {
      Hierarchy(roles, parents)
    }

    ghost predicate Pending(adding: set<RoleId>, removing: set<RoleId>)
      reads this, table
    {
      Consistent(H(), ever, table.rows, adding, removing)
    }

    ghost predicate Valid()
      reads this, table
    {
      if batching then Pending(additions, removals) else Pending({}, {})
    }

    ghost predicate IsExact()
      reads this, table
    {
      !batching && Exact(H(), table.rows)
    }

    constructor ()
      ensures Valid() && IsExact() && roles == {} && fresh(table)
    {
      table := new AncestorTable();
      roles, parents, batching, additions, removals, ever := {}, {}, false, {}, {}, {};
    }

    /** Put the roles on the batch's lists, or rebuild at once. */
    method RebuildAncestors(adding: seq<RoleId>, removing: seq<RoleId>) returns (ok: bool)
      requires if batching then Pending(additions + Elements(adding), removals + Elements(removing))
               else Pending(Elements(adding), Elements(removing))
      modifies this`additions, this`removals, table
      ensures ok ==> Valid()
      ensures batching ==> ok && table.rows == old(table.rows)
      ensures batching ==> additions == old(additions) + Elements(adding)
      ensures batching ==> removals == old(removals) + Elements(removing)
      ensures !batching ==> additions == old(additions) && removals == old(removals)
      ensures !batching && ok ==> Rebuilt(H(), ever, old(table.rows), table.rows)
      ensures !ok ==> table.rows == old(table.rows)
      ensures !Deeper(parents, Elements(adding) + Elements(removing), MAX_SWEEPS) ==> ok
      ensures (adding == [] || removing == []) && |roles| <= MAX_SWEEPS ==> ok
    {
      if batching {
        additions, removals := additions + Elements(adding), removals + Elements(removing);
        ok := true;
      } else {
        ok := table.Rebuild(adding, removing, H(), ever);
      }
    }

    /** An exact table starts a new history. */
    ghost method Rebase()
      requires Valid()
      modifies this`ever
      ensures Valid() && (IsExact() ==> ever == parents) && (!IsExact() ==> ever == old(ever))
    {
      if IsExact() {
        ExactIsSettled(H(), table.rows);
        ever := parents;
      }
    }

    /** Links and the rebuilding that answers the signal, in one transaction. */
    method AddLinks(added: set<Link>, adding: seq<RoleId>) returns (ok: bool)
      requires Valid()
      requires forall l :: l in added ==> l.0 in roles && l.1 in roles && (l.0 in adding || l in parents)
      modifies this, table
      ensures Valid() && roles == old(roles) && batching == old(batching)
      ensures parents == if ok then old(parents) + added else old(parents)
      ensures !ok ==> table.rows == old(table.rows) && additions == old(additions) && removals == old(removals)
      ensures batching ==> ok && table.rows == old(table.rows)
      ensures batching ==> additions == old(additions) + Elements(adding) && removals == old(removals)
      ensures ok && old(IsExact()) ==> IsExact()
      ensures |roles| <= MAX_SWEEPS ==> ok
    {
      Rebase();
      ghost var h, before := H(), ever;
      var saved := parents;
      MoreLinksConsistent(h, ever, table.rows, if batching then additions else {}, if batching then removals else {},
                          added, Elements(adding));
      parents := parents + added;
      ever := ever + added;
      ok := RebuildAncestors(adding, []);
      if !ok {
        parents := saved;
        ever := before;
      } else if !batching && ever == parents {
        ConsistentIsExact(H(), ever, table.rows);
      }
    }

    method RemoveLinks(removed: set<Link>, removing: seq<RoleId>) returns (ok: bool)
      requires Valid() && forall l :: l in removed ==> l.0 in removing
      modifies this, table
      ensures Valid() && roles == old(roles) && batching == old(batching)
      ensures parents == if ok then old(parents) - removed else old(parents)
      ensures !ok ==> table.rows == old(table.rows) && additions == old(additions) && removals == old(removals)
      ensures batching ==> ok && table.rows == old(table.rows)
      ensures batching ==> additions == old(additions) && removals == old(removals) + Elements(removing)
      ensures |roles| <= MAX_SWEEPS ==> ok
      ensures ok && old(IsExact()) ==> (IsExact() <==> LoopsKeep(H(), old(parents)))
    {
      Rebase();
      ghost var h, before := H(), table.rows;
      var saved := parents;
      FewerLinksConsistent(h, ever, table.rows, if batching then additions else {}, if batching then removals else {},
                           removed, Elements(removing));
      parents := parents - removed;
      ok := RebuildAncestors([], removing);
      if !ok {
        parents := saved;
      } else if old(IsExact()) {
        assert Cascade(before, roles) == before;
        RemovalExactlyWhen(h, H(), before, table.rows);
      }
    }

    /** role.parents.add(...): the role itself is rebuilt. */
    method AddParents(role: RoleId, ps: set<RoleId>) returns (ok: bool)
      requires Valid() && role in roles && ps <= roles
      modifies this, table
      ensures Valid() && roles == old(roles) && batching == old(batching)
      ensures parents == if ok then old(parents) + ToParents(role, ps) else old(parents)
      ensures batching ==> additions == old(additions) + (if ps == {} then {} else {role}) && removals == old(removals)
      ensures !ok ==> table.rows == old(table.rows)
      ensures batching || |roles| <= MAX_SWEEPS ==> ok
      ensures ok && old(IsExact()) ==> IsExact()
    {
      ok := true;
      if ps != {} {
        ok := AddLinks(ToParents(role, ps), [role]);
      }
    }

    /** role.children.add(...): each child that is new to the role is rebuilt. */
    method AddChildren(role: RoleId, cs: set<RoleId>) returns (ok: bool)
      requires Valid() && role in roles && cs <= roles
      modifies this, table
      ensures Valid() && roles == old(roles) && batching == old(batching)
      ensures parents == if ok then old(parents) + ToChildren(role, cs) else old(parents)
      ensures batching ==> removals == old(removals)
      ensures batching ==> additions == old(additions) + set c | c in cs && (c, role) !in old(parents)
      ensures !ok ==> table.rows == old(table.rows)
      ensures batching || |roles| <= MAX_SWEEPS ==> ok
      ensures ok && old(IsExact()) ==> IsExact()
    {
      ok := true;
      if cs != {} {
        NewChildrenSuffice(parents, role, cs);
        var list := ListOf(NewChildren(parents, role, cs));
        ok := AddLinks(ToChildren(role, cs), list);
      }
    }

    /** role.parents.remove(...) */
    method RemoveParents(role: RoleId, ps: set<RoleId>) returns (ok: bool)
      requires Valid()
      modifies this, table
      ensures Valid() && roles == old(roles) && batching == old(batching)
      ensures parents == if ok then old(parents) - ToParents(role, ps) else old(parents)
      ensures batching ==> additions == old(additions) && removals == old(removals) + (if ps == {} then {} else {role})
      ensures !ok ==> table.rows == old(table.rows)
      ensures batching || |roles| <= MAX_SWEEPS ==> ok
      ensures ok && old(IsExact()) ==> (IsExact() <==> LoopsKeep(H(), old(parents)))
    {
      ok := true;
      if ps != {} {
        ok := RemoveLinks(ToParents(role, ps), [role]);
      } else {
        assert ToParents(role, ps) == {};
      }
    }

    /** role.children.remove(...) */
    method RemoveChildren(role: RoleId, cs: set<RoleId>) returns (ok: bool)
      requires Valid()
      modifies this, table
      ensures Valid() && roles == old(roles) && batching == old(batching)
      ensures parents == if ok then old(parents) - ToChildren(role, cs) else old(parents)
      ensures batching ==> additions == old(additions) && removals == old(removals) + cs
      ensures !ok ==> table.rows == old(table.rows)
      ensures batching || |roles| <= MAX_SWEEPS ==> ok
      ensures ok && old(IsExact()) ==> (IsExact() <==> LoopsKeep(H(), old(parents)))
    {
      ok := true;
      if cs != {} {
        var list := ListOf(cs);
        ok := RemoveLinks(ToChildren(role, cs), list);
      } else {
        assert ToChildren(role, cs) == {};
      }
    }

    method CreateRole(role: RoleId) returns (ok: bool)
      requires Valid() && role !in roles
      modifies this, table
      ensures Valid() && batching == old(batching) && parents == old(parents)
      ensures roles == if ok then old(roles) + {role} else old(roles)
      ensures !ok ==> table.rows == old(table.rows)
      ensures batching || |old(roles)| < MAX_SWEEPS ==> ok
      ensures batching ==> additions == old(additions) + {role} && removals == old(removals)
      ensures ok && old(IsExact()) ==> IsExact()
    {
      Rebase();
      ok := TryCreate(role);
      if ok && !batching && ever == parents {
        ConsistentIsExact(H(), ever, table.rows);
      }
    }

    /** The row of a new role, which nothing is linked to yet. */
    method InsertRole(role: RoleId)
      requires Valid() && role !in roles
      modifies this`roles
      ensures roles == old(roles) + {role} && |roles| == |old(roles)| + 1
      ensures if batching then Pending(additions + {role}, removals) else Pending({role}, {})
    {
      NewRoleConsistent(H(), ever, table.rows, if batching then additions else {}, if batching then removals else {},
                        role);
      roles := roles + {role};
    }

    /** Insert and rebuild, in one transaction. */
    method TryCreate(role: RoleId) returns (ok: bool)
      requires Valid() && role !in roles
      modifies this`roles, this`additions, this`removals, table
      ensures Valid() && roles == if ok then old(roles) + {role} else old(roles)
      ensures !ok ==> table.rows == old(table.rows)
      ensures batching || |old(roles)| < MAX_SWEEPS ==> ok
      ensures batching ==> additions == old(additions) + {role} && removals == old(removals)
    {
      var saved := roles;
      InsertRole(role);
      ok := RebuildAncestors([role], []);
      if !ok {
        roles := saved;
      }
    }

    /** Saving a role that exists rebuilds it, which changes nothing that matters. */
    method SaveRole(role: RoleId) returns (ok: bool)
      requires Valid() && role in roles
      modifies this, table
      ensures Valid() && batching == old(batching) && H() == old(H())
      ensures !ok ==> table.rows == old(table.rows)
      ensures batching || |roles| <= MAX_SWEEPS ==> ok
      ensures batching ==> additions == old(additions) + {role} && removals == old(removals)
      ensures ok && old(IsExact()) ==> table.rows == old(table.rows)
    {
      ok := AddLinks({}, [role]);
      if ok && old(IsExact()) {
        SameRows(H(), old(table.rows), table.rows);
      }
    }

    /** Delete roles: their links and rows go with them, then what their children inherited is rebuilt. */
    method DeleteRoles(gone: set<RoleId>) returns (ok: bool)
      requires Valid()
      modifies this, table
      ensures Valid() && batching == old(batching)
      ensures H() == if ok then Without(old(H()), gone) else old(H())
      ensures !ok ==> table.rows == old(table.rows)
      ensures batching || |old(roles) - gone| <= MAX_SWEEPS ==> ok
      ensures batching ==> additions == old(additions) && removals == old(removals) + ChildrenOf(old(parents), gone)
      ensures ok && old(IsExact()) ==> (IsExact() <==> LoopsKeep(H(), old(parents)))
    {
      Rebase();
      ghost var h, before := H(), table.rows;
      ok := TryDelete(gone);
      if ok && old(IsExact()) {
        RemovalExactlyWhen(h, H(), before, table.rows);
      }
    }

    /** Delete and rebuild, in one transaction. */
    method TryDelete(gone: set<RoleId>) returns (ok: bool)
      requires Valid()
      modifies this`roles, this`parents, this`additions, this`removals, table
      ensures Valid() && H() == if ok then Without(old(H()), gone) else old(H())
      ensures !ok ==> table.rows == old(table.rows)
      ensures batching || |old(roles) - gone| <= MAX_SWEEPS ==> ok
      ensures batching ==> additions == old(additions) && removals == old(removals) + ChildrenOf(old(parents), gone)
      ensures ok && !batching ==> Rebuilt(H(), ever, Cascade(old(table.rows), roles), table.rows)
    {
      var savedRoles, savedParents, savedRows := roles, parents, table.rows;
      var orphans := ListOf(ChildrenOf(parents, gone));
      RemoveRows(gone);
      ok := RebuildAncestors([], orphans);
      if !ok {
        roles, parents, table.rows := savedRoles, savedParents, savedRows;
      }
    }

    /** Undo whatever has been done since these were the contents. */
    method Restore(roles0: set<RoleId>, parents0: set<Link>, rows0: set<Row>, additions0: set<RoleId>,
                   removals0: set<RoleId>, ghost ever0: set<Link>)
      modifies this, table
      ensures H() == Hierarchy(roles0, parents0) && table.rows == rows0 && ever == ever0 && batching == old(batching)
      ensures additions == additions0 && removals == removals0
    {
      roles, parents, additions, removals, ever := roles0, parents0, additions0, removals0, ever0;
      table.rows := rows0;
    }

    /** What the database's cascade takes away. */
    method RemoveRows(gone: set<RoleId>)
      requires Valid()
      modifies this`roles, this`parents, table
      ensures H() == Without(old(H()), gone) && table.rows == Cascade(old(table.rows), roles)
      ensures if batching then Pending(additions, removals + ChildrenOf(old(parents), gone))
              else Pending({}, ChildrenOf(old(parents), gone))
    {
      var h := Without(H(), gone);
      if batching {
        DeletedConsistent(H(), ever, table.rows, additions, removals, gone);
      } else {
        DeletedConsistent(H(), ever, table.rows, {}, {}, gone);
      }
      roles, parents := h.roles, h.parents;
      table.rows := Cascade(table.rows, h.roles);
    }

    /** Entering a batch: an outermost one starts empty lists. */
    method BeginBatch() returns (nested: bool)
      requires Valid()
      modifies this
      ensures Valid() && batching && nested == old(batching)
      ensures H() == old(H()) && ever == old(ever)
      ensures nested ==> additions == old(additions) && removals == old(removals)
      ensures !nested ==> additions == {} && removals == {}
    {
      nested := batching;
      batching := true;
      if !nested {
        additions, removals := {}, {};
      }
    }

    /** Leaving a batch: the outermost one rebuilds what all of it changed.  If that raises, the lists are lost
        and the table is left as it was before the batch. */
    method EndBatch(nested: bool) returns (ok: bool)
      requires Valid() && batching
      modifies this, table
      ensures batching == nested && H() == old(H()) && ever == old(ever)
      ensures ok ==> Valid()
      ensures nested ==> ok && table.rows == old(table.rows) && additions == old(additions) && removals == old(removals)
      ensures !ok ==> table.rows == old(table.rows)
      ensures ok && !nested && LoopsKeep(H(), ever) ==> IsExact()
      ensures ok && IsExact() ==> LoopsCarry(H(), old(table.rows))
      ensures ok && !nested && old(additions) == {} ==> (IsExact() <==> LoopsCarry(H(), old(table.rows)))
      ensures !Deeper(parents, old(additions) + old(removals), MAX_SWEEPS) ==> ok
      ensures (old(additions) == {} || old(removals) == {}) && |roles| <= MAX_SWEEPS ==> ok
    {
      batching := nested;
      ok := true;
      if !nested {
        var adding := ListOf(additions);
        var removing := ListOf(removals);
        ghost var before := table.rows;
        ok := table.Rebuild(adding, removing, H(), ever);
        NoneListed(additions, adding);
        NoneListed(removals, removing);
        if ok {
          SettledExactlyWhen(H(), before, table.rows);
          BatchExact(H(), ever, table.rows);
        }
      }
    }
  }

  lemma NoneListed(ids: set<RoleId>, list: seq<RoleId>)
    requires Elements(list) == ids
    ensures ids == {} ==> list == []
  {
    assert list != [] ==> list[0] in Elements(list);
  }

  lemma BatchExact(h: Hierarchy, ever: set<Link>, rows: set<Row>)
    requires Consistent(h, ever, rows, {}, {})
    ensures LoopsKeep(h, ever) ==> Exact(h, rows)
  {
    if LoopsKeep(h, ever) {
      ConsistentIsExact(h, ever, rows);
    }
  }
}
