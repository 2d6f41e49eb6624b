/** The deep copy of an object tree: a recursive pass that copies rows below a new root, and a second pass that
    repairs what links the copies. */
module DeepCopy {
  import opened Wrappers

  import opened ObjectForest
  import opened CopyLinks

  class Store {
    const s: Schema
    var objs: World
    var next: Id
    var links: set<Link>

    ghost predicate Ready()
      reads this
    {
      s.Valid() && forall i :: i in objs ==> i < next
    }

    constructor (s: Schema, objs: World, next: Id, links: set<Link>)
      requires s.Valid() && forall i :: i in objs ==> i < next
      ensures this.s == s && this.objs == objs && this.links == links && Ready()
    {
      this.s, this.objs, this.next, this.links := s, objs, next, links;
    }

    /** Collect the new row's links and values, field by field. */
    method BuildKwargs(o: Obj, oldParent: Id, newParent: Id) returns (fks: map<Name, Id>, values: map<Name, string>)
      requires s.Valid()
      ensures fks == CollectedFks(s, o, oldParent, newParent, |s.FieldsOf(o.model)|)
      ensures values == CollectedValues(s, o, |s.FieldsOf(o.model)|)
    {
      var fields := s.FieldsOf(o.model);
      fks, values := map[], map[];
      var i := 0;
      while i < |fields|
        invariant 0 <= i <= |fields|
        invariant fks == CollectedFks(s, o, oldParent, newParent, i)
        invariant values == CollectedValues(s, o, i)
      {
        var f := fields[i];
        if !f.excluded {
          if f.kind.ForeignKey? && f.name in o.fks {
            if o.fks[f.name] == oldParent {
              fks := fks[f.name := newParent];
            } else if f.preserved {
              fks := fks[f.name := o.fks[f.name]];
            }
          } else if f.kind.Value? && f.preserved && f.name in o.values {
            values := values[f.name := o.values[f.name]];
          }
        }
        i := i + 1;
      }
    }

    /** Save the new row. */
    method CreateCopy(x: Id, oldParent: Id, newParent: Id, creator: Name) returns (id: Id)
      requires Ready() && x in objs
      modifies this`objs, this`next
      ensures Ready() && id == old(next) && id !in old(objs)
      ensures objs == old(objs)[id := CopyOf(s, old(objs)[x], oldParent, newParent, creator)]
    {
      var fks, values := BuildKwargs(objs[x], oldParent, newParent);
      AllFksCollected(s, objs[x], oldParent, newParent, |s.FieldsOf(objs[x].model)|);
      AllValuesCollected(s, objs[x], |s.FieldsOf(objs[x].model)|);
      AllFields(s, objs[x], oldParent, newParent, creator);
      id := next;
      objs := objs[id := Obj(objs[x].model, fks, values, creator)];
      next := next + 1;
    }

    /** The recursive copy of x under a new parent.  The result maps x and everything below it, one to
        one, to new rows; no row that existed is changed.  `w` is the world as the copy began. */
    method CopyModelObj(oldParent: Id, newParent: Id, x: Id, creator: Name, ghost w: World, ghost rank: map<Id, nat>)
      returns (ret: map<Id, Id>)
      requires Ready() && Forest(s, w, rank) && Extends(s, w, objs)
      requires oldParent in w && x in Kids(s, w, rank, oldParent) && newParent !in w
      modifies this`objs, this`next
      ensures Ready() && Extends(s, w, objs) && Grown(old(objs), objs)
      ensures CopiedTree(s, w, rank, objs, x, ret, oldParent, newParent, creator)
      ensures forall y :: y in ret ==> ret[y] !in old(objs)
      decreases rank[x], 4
    {
      var id := CreateCopy(x, oldParent, newParent, creator);
      CreatedExtends(s, w, rank, old(objs), objs, x, id, oldParent, newParent, creator);
      ret := CopyFields(x, id, creator, w, rank);
    }

    /** The children listed by each followed field, one field after another. */
    method CopyFields(x: Id, id: Id, creator: Name, ghost w: World, ghost rank: map<Id, nat>) returns (ret: map<Id, Id>)
      requires Ready() && Forest(s, w, rank) && x in w && Extends(s, w, objs) && id in objs && id !in w
      modifies this`objs, this`next
      ensures Ready()
      ensures TreeSoFar(s, w, rank, old(objs), objs, x, id, Kids(s, w, rank, x), ret, creator)
      decreases rank[x], 3
    {
      var acc: map<Id, Id> := map[x := id];
      var fields := s.FieldsOf(objs[x].model);
      TreeStarts(s, w, rank, objs, x, id, KidsUpTo(s, w, rank, x, 0), creator);
      var i := 0;
      while i < |fields|
        invariant 0 <= i <= |fields| && Ready()
        invariant TreeSoFar(s, w, rank, old(objs), objs, x, id, KidsUpTo(s, w, rank, x, i), acc, creator)
      {
        acc := CopyField(x, id, fields[i], acc, creator, w, rank, i, old(objs));
        i := i + 1;
      }
      AllKids(s, w, rank, x);
      ret := acc;
    }

    /** The children listed by one field, the i-th. */
    method CopyField(x: Id, id: Id, f: Field, ret0: map<Id, Id>, creator: Name, ghost w: World,
                     ghost rank: map<Id, nat>, ghost i: nat, ghost mid: World)
      returns (ret: map<Id, Id>)
      requires Ready() && Forest(s, w, rank) && x in w && i < |s.FieldsOf(w[x].model)| && f == s.FieldsOf(w[x].model)[i]
      requires TreeSoFar(s, w, rank, mid, objs, x, id, KidsUpTo(s, w, rank, x, i), ret0, creator)
      modifies this`objs, this`next
      ensures Ready()
      ensures TreeSoFar(s, w, rank, mid, objs, x, id, KidsUpTo(s, w, rank, x, i + 1), ret, creator)
      decreases rank[x], 2
    {
      KidsStep(s, w, rank, x, i);
      ret := ret0;
      if f.kind.OneToMany? && f.preserved && !f.excluded {
        SameChildren(s, w, objs, x, f);
        ret := CopyKids(x, id, ChildrenVia(s, objs, x, f), ret0, creator, w, rank, KidsUpTo(s, w, rank, x, i), mid);
      }
    }

    method CopyKids(x: Id, id: Id, found: set<Id>, ret0: map<Id, Id>, creator: Name,
                    ghost w: World, ghost rank: map<Id, nat>, ghost kids0: set<Id>, ghost mid: World)
      returns (ret: map<Id, Id>)
      requires Ready() && Forest(s, w, rank) && x in w
      requires found <= Kids(s, w, rank, x) && kids0 <= Kids(s, w, rank, x) && found !! kids0
      requires TreeSoFar(s, w, rank, mid, objs, x, id, kids0, ret0, creator)
      modifies this`objs, this`next
      ensures Ready()
      ensures TreeSoFar(s, w, rank, mid, objs, x, id, kids0 + found, ret, creator)
      decreases rank[x], 1
    {
      var acc: map<Id, Id> := ret0;
      var todo := found;
      ghost var kids := kids0;
      while todo != {}
        invariant Ready() && kids <= Kids(s, w, rank, x) && todo <= Kids(s, w, rank, x)
        invariant Split(kids0 + found, kids, todo)
        invariant TreeSoFar(s, w, rank, mid, objs, x, id, kids, acc, creator)
        decreases todo
      {
        var c :| c in todo;
        acc := CopyOneKid(x, id, c, acc, creator, w, rank, kids, mid);
        SplitStep(kids0 + found, kids, todo, c);
        todo := todo - {c};
        kids := kids + {c};
      }
      SplitEnd(kids0 + found, kids);
      ret := acc;
    }

    method CopyOneKid(x: Id, id: Id, c: Id, ret0: map<Id, Id>, creator: Name,
                      ghost w: World, ghost rank: map<Id, nat>, ghost kids: set<Id>, ghost mid: World)
      returns (ret: map<Id, Id>)
      requires Ready() && Forest(s, w, rank) && x in w
      requires kids <= Kids(s, w, rank, x) && c in Kids(s, w, rank, x) && c !in kids
      requires TreeSoFar(s, w, rank, mid, objs, x, id, kids, ret0, creator)
      modifies this`objs, this`next
      ensures Ready()
      ensures TreeSoFar(s, w, rank, mid, objs, x, id, kids + {c}, ret, creator)
      ensures forall y :: y in ret <==> y in ret0 || y in Subtree(s, w, rank, c)
      decreases rank[x], 0
    {
      ghost var now := objs;
      var sub := CopyModelObj(x, id, c, creator, w, rank);
      TreeGrows(s, w, rank, mid, now, objs, x, id, kids, c, ret0, sub, creator);
      ret := ret0 + sub;
    }

    /** The deferred job: copy the subtree of each listed child of the root, collecting one map.  The
        map of the root to its own copy is carried along here; the deferred job leaves it out. */
    method CopySubObjects(root: Id, newRoot: Id, subs: seq<Id>, creator: Name, ghost w: World, ghost rank: map<Id, nat>)
      returns (mapping: map<Id, Id>)
      requires Ready() && Forest(s, w, rank) && Extends(s, w, objs) && root in w && newRoot in objs && newRoot !in w
      requires Elements(subs) <= Kids(s, w, rank, root)
      requires forall i, j :: 0 <= i < j < |subs| ==> subs[i] != subs[j]
      modifies this`objs, this`next
      ensures Ready()
      ensures TreeSoFar(s, w, rank, old(objs), objs, root, newRoot, Elements(subs), mapping, creator)
    {
      mapping := map[root := newRoot];
      var i := 0;
      TreeStarts(s, w, rank, objs, root, newRoot, Elements(subs[..0]), creator);
      while i < |subs|
        invariant 0 <= i <= |subs| && Ready() && Elements(subs[..i]) <= Kids(s, w, rank, root)
        invariant TreeSoFar(s, w, rank, old(objs), objs, root, newRoot, Elements(subs[..i]), mapping, creator)
      {
        mapping := CopyNextSub(root, newRoot, subs, i, mapping, creator, w, rank, old(objs));
        i := i + 1;
      }
      assert subs[..i] == subs;
    }

    method CopyNextSub(root: Id, newRoot: Id, subs: seq<Id>, i: nat, mapping0: map<Id, Id>, creator: Name,
                       ghost w: World, ghost rank: map<Id, nat>, ghost mid: World)
      returns (mapping: map<Id, Id>)
      requires Ready() && Forest(s, w, rank) && root in w && i < |subs|
      requires Elements(subs) <= Kids(s, w, rank, root) && Elements(subs[..i]) <= Kids(s, w, rank, root)
      requires forall j, k :: 0 <= j < k < |subs| ==> subs[j] != subs[k]
      requires TreeSoFar(s, w, rank, mid, objs, root, newRoot, Elements(subs[..i]), mapping0, creator)
      modifies this`objs, this`next
      ensures Ready() && Elements(subs[..i + 1]) <= Kids(s, w, rank, root)
      ensures TreeSoFar(s, w, rank, mid, objs, root, newRoot, Elements(subs[..i + 1]), mapping, creator)
    {
      OneMoreElement(subs, i);
      assert subs[i] in Elements(subs);
      mapping := CopyOneKid(root, newRoot, subs[i], mapping0, creator, w, rank, Elements(subs[..i]), mid);
    }

    /** One relationship of one copied object: link its copy to the copies of what the object is linked to, or
        to the same rows where those were not copied. */
    method AddLinks(relation: Name, forward: bool, x: Id, mapping: map<Id, Id>)
      requires x in mapping
      modifies this`links
      ensures links == old(links) + Images(relation, forward, x, mapping, old(links))
    {
      var todo := Related(relation, forward, x, links);
      ghost var all := todo;
      ghost var start := links;
      while todo != {}
        invariant todo <= all
        invariant links == start + set r | r in all - todo :: Image(relation, forward, x, r, mapping)
        decreases todo
      {
        var r :| r in todo;
        todo := todo - {r};
        links := links + {Image(relation, forward, x, r, mapping)};
      }
      assert all - todo == all;
    }

    /** The second pass over one copied object. */
    method RepairOne(x: Id, mapping: map<Id, Id>, ghost links0: set<Link>)
      requires CopyMap(mapping) && x in mapping && x in objs && mapping[x] in objs
      requires AddedTo(mapping, links0, links)
      modifies this`objs, this`links
      ensures objs == old(objs)[mapping[x] := Repair(s, old(objs)[x], old(objs)[mapping[x]], mapping)]
      ensures var fields := s.FieldsOf(old(objs)[x].model);
              links == old(links) + RowImages(fields, |fields|, x, mapping, links0)
      ensures AddedTo(mapping, links0, links)
    {
      var o, row, fields := objs[x], objs[mapping[x]], s.FieldsOf(objs[x].model);
      var i := 0;
      NoImagesYet(fields, x, mapping, links0);
      while i < |fields|
        invariant 0 <= i <= |fields| && objs == old(objs)
        invariant row == old(objs)[mapping[x]].(fks := RepairFks(fields, i, o, old(objs)[mapping[x]].fks, mapping))
        invariant links == old(links) + RowImages(fields, i, x, mapping, links0)
        invariant AddedTo(mapping, links0, links)
      {
        MoreImages(fields, i, x, mapping, links0, links);
        row := RepairField(fields[i], x, o, row, mapping);
        i := i + 1;
      }
      objs := objs[mapping[x] := row];
    }

    /** One field of it: a foreign key that is still null, or a relationship. */
    method RepairField(f: Field, x: Id, o: Obj, row: Obj, mapping: map<Id, Id>) returns (row': Obj)
      requires x in mapping
      modifies this`links
      ensures row' == row.(fks := RepairFk(f, o, row.fks, mapping))
      ensures links == old(links) + FieldImages(f, x, mapping, old(links))
    {
      row' := row;
      if f.kind.ForeignKey? && f.preserved {
        if f.name !in row.fks && f.name in o.fks {
          row' := row.(fks := row.fks[f.name := Mapped(mapping, o.fks[f.name])]);
        }
      } else if f.kind.ManyToMany? && f.preserved {
        AddLinks(f.kind.relation, f.kind.forward, x, mapping);
      }
    }

    /** The second pass, over the copied objects in whatever order. */
    method ReconstructRelationships(mapping: map<Id, Id>)
      requires Ready() && CopyMap(mapping) && mapping.Keys <= objs.Keys && mapping.Values <= objs.Keys
      modifies this`objs, this`links
      ensures Ready() && RowsRepaired(s, old(objs), objs, mapping, mapping.Keys)
      ensures links == Rebuilt(s, old(objs), mapping, old(links))
    {
      var todo := mapping.Keys;
      ghost var done: set<Id> := {};
      assert AllImages(s, objs, done, mapping, links) == {};
      while todo != {}
        invariant Split(mapping.Keys, done, todo)
        invariant PartlyRepaired(s, old(objs), objs, mapping, done, old(links), links)
        decreases todo
      {
        var x :| x in todo;
        RepairNext(x, mapping, old(objs), old(links), done);
        SplitStep(mapping.Keys, done, todo, x);
        todo, done := todo - {x}, done + {x};
      }
      SplitEnd(mapping.Keys, done);
    }

    method RepairNext(x: Id, mapping: map<Id, Id>, ghost before: World, ghost links0: set<Link>, ghost done: set<Id>)
      requires CopyMap(mapping) && mapping.Keys <= before.Keys && mapping.Values <= before.Keys && done <= mapping.Keys
      requires x in mapping && x !in done && PartlyRepaired(s, before, objs, mapping, done, links0, links)
      modifies this`objs, this`links
      ensures PartlyRepaired(s, before, objs, mapping, done + {x}, links0, links)
    {
      RowKept(s, before, objs, mapping, done, x);
      ghost var now := objs;
      RepairOne(x, mapping, links0);
      OneMoreRow(s, before, now, objs, mapping, done, x);
      MoreRowImages(s, before, done, mapping, links0, x);
    }

    /** The deferred job: copy the subtrees of the listed children of the root, then repair what links the
        copies.  `mapping` does not hold the root, so links to it stay with the original root.  `w` is any part
        of the stored rows that holds the root and lists no other row: the root and all below it, say. */
    method DeepCopy(root: Id, newRoot: Id, subs: seq<Id>, creator: Name, ghost w: World, ghost rank: map<Id, nat>)
      returns (mapping: map<Id, Id>)
      requires Ready() && Forest(s, w, rank) && Extends(s, w, objs) && root in w && newRoot in objs && newRoot !in w
      requires Elements(subs) <= Kids(s, w, rank, root)
      requires forall i, j :: 0 <= i < j < |subs| ==> subs[i] != subs[j]
      requires forall l :: l in links ==> l.1 in objs && l.2 in objs
      modifies this`objs, this`next, this`links
      ensures Ready() && Grown(old(objs), objs)
      ensures CopyMap(mapping) && mapping.Keys == Below(s, w, rank, root, Elements(subs)) &&
              mapping.Values !! old(objs).Keys
      ensures CopiesPlaced(s, w, rank, objs, root, newRoot, mapping, creator)
      ensures links == Rebuilt(s, w, mapping, old(links)) && Unlinked(mapping, old(links))
    {
      ghost var before := objs;
      var all := CopySubObjects(root, newRoot, subs, creator, w, rank);
      mapping := all - {root};
      ghost var mid := objs;
      WithoutRoot(s, w, rank, before, mid, root, newRoot, Elements(subs), all, mapping, creator);
      ReconstructRelationships(mapping);
      Placed(s, w, rank, before, mid, objs, root, newRoot, Elements(subs), all, mapping, creator);
      SameImages(s, w, mid, mapping, links);
      SameImages(s, w, mid, mapping, old(links));
    }
  }

  // ---------------------------------------------------------------- the second pass

  /** Some images have been added. */
  ghost predicate AddedTo(mapping: map<Id, Id>, before: set<Link>, now: set<Link>) {
    before <= now && forall l :: l in now && l !in before ==> l.1 !in mapping && l.2 !in mapping
  }

  lemma NoImagesYet(fields: seq<Field>, x: Id, mapping: map<Id, Id>, links: set<Link>)
    requires x in mapping
    ensures RowImages(fields, 0, x, mapping, links) == {}
  {
  }

  lemma MoreImages(fields: seq<Field>, i: nat, x: Id, mapping: map<Id, Id>, before: set<Link>, now: set<Link>)
    requires CopyMap(mapping) && x in mapping && i < |fields| && AddedTo(mapping, before, now)
    ensures RowImages(fields, i + 1, x, mapping, before) ==
            RowImages(fields, i, x, mapping, before) + FieldImages(fields[i], x, mapping, before)
    ensures FieldImages(fields[i], x, mapping, before) == FieldImages(fields[i], x, mapping, now)
    ensures AddedTo(mapping, before, now + FieldImages(fields[i], x, mapping, before))
  {
    var f := fields[i];
    if f.kind.ManyToMany? {
      RelatedUnchanged(f.kind.relation, f.kind.forward, x, mapping, before, now - before);
      assert before + (now - before) == now;
    }
  }

  lemma MoreRowImages(s: Schema, w: World, done: set<Id>, mapping: map<Id, Id>, links: set<Link>, x: Id)
    requires x in mapping && x in w && done <= mapping.Keys && done <= w.Keys
    ensures var fields := s.FieldsOf(w[x].model);
            AllImages(s, w, done + {x}, mapping, links) ==
            AllImages(s, w, done, mapping, links) + RowImages(fields, |fields|, x, mapping, links)
  {
  }

  /** The copies of the rows visited so far have been repaired, and no other row has changed. */
  ghost predicate RowsRepaired(s: Schema, before: World, now: World, mapping: map<Id, Id>, done: set<Id>)
    requires mapping.Keys <= before.Keys && mapping.Values <= before.Keys && done <= mapping.Keys
  {
    && now.Keys == before.Keys
    && (forall x :: x in done ==> now[mapping[x]] == Repair(s, before[x], before[mapping[x]], mapping))
    && (forall i :: i in before && (forall x :: x in done ==> mapping[x] != i) ==> now[i] == before[i])
  }

  ghost predicate PartlyRepaired(s: Schema, before: World, now: World, mapping: map<Id, Id>, done: set<Id>,
                                 links0: set<Link>, links: set<Link>)
    requires mapping.Keys <= before.Keys && mapping.Values <= before.Keys && done <= mapping.Keys
  {
    && RowsRepaired(s, before, now, mapping, done)
    && links == links0 + AllImages(s, before, done, mapping, links0)
    && AddedTo(mapping, links0, links)
  }

  lemma RowKept(s: Schema, before: World, now: World, mapping: map<Id, Id>, done: set<Id>, x: Id)
    requires CopyMap(mapping) && mapping.Keys <= before.Keys && mapping.Values <= before.Keys && done <= mapping.Keys
    requires RowsRepaired(s, before, now, mapping, done) && x in mapping && x !in done
    ensures now[x] == before[x] && mapping[x] in before && now[mapping[x]] == before[mapping[x]]
  {
    assert mapping[x] in mapping.Values;
  }

  lemma OneMoreRow(s: Schema, before: World, now1: World, now2: World, mapping: map<Id, Id>, done: set<Id>, x: Id)
    requires CopyMap(mapping) && mapping.Keys <= before.Keys && mapping.Values <= before.Keys && done <= mapping.Keys
    requires RowsRepaired(s, before, now1, mapping, done) && x in mapping && x !in done && mapping[x] in before
    requires now2 == now1[mapping[x] := Repair(s, before[x], before[mapping[x]], mapping)]
    ensures RowsRepaired(s, before, now2, mapping, done + {x})
  {
    assert x in done + {x};
    forall y | y in done + {x} ensures now2[mapping[y]] == Repair(s, before[y], before[mapping[y]], mapping) {
    }
    forall i | i in before && (forall y :: y in done + {x} ==> mapping[y] != i) ensures now2[i] == before[i] {
      forall y | y in done ensures mapping[y] != i {
        assert y in done + {x};
      }
    }
  }

  lemma SameImages(s: Schema, w: World, now: World, mapping: map<Id, Id>, links: set<Link>)
    requires Extends(s, w, now) && mapping.Keys <= w.Keys
    ensures Rebuilt(s, w, mapping, links) == Rebuilt(s, now, mapping, links)
  {
  }

  // ---------------------------------------------------------------- the whole copy

  function NewParent(root: Id, newRoot: Id, mapping: map<Id, Id>, y: Id): Id {
    if y != root && y in mapping then mapping[y] else newRoot
  }

  /** Each copy hangs below the copy of its own parent, and is what the two passes make of its original. */
  ghost predicate CopiesPlaced(s: Schema, w: World, rank: map<Id, nat>, now: World, root: Id, newRoot: Id,
                               mapping: map<Id, Id>, creator: Name)
    requires Forest(s, w, rank)
  {
    forall y, c :: y in w && (y == root || y in mapping) && c in Kids(s, w, rank, y) && c in mapping ==>
      && mapping[c] in now
      && now[mapping[c]] == Repair(s, w[c], CopyOf(s, w[c], y, NewParent(root, newRoot, mapping, y), creator), mapping)
  }

  lemma WithoutRoot(s: Schema, w: World, rank: map<Id, nat>, before: World, mid: World, root: Id, newRoot: Id,
                    subs: set<Id>, all: map<Id, Id>, mapping: map<Id, Id>, creator: Name)
    requires Forest(s, w, rank) && Extends(s, w, before) && root in w && subs <= Kids(s, w, rank, root)
    requires TreeSoFar(s, w, rank, before, mid, root, newRoot, subs, all, creator) && mapping == all - {root}
    ensures CopyMap(mapping) && mapping.Keys == Below(s, w, rank, root, subs)
    ensures mapping.Values !! before.Keys && mapping.Keys <= mid.Keys && mapping.Values <= mid.Keys
    ensures mapping.Keys <= w.Keys
  {
    assert root !in Below(s, w, rank, root, subs);
  }

  lemma Placed(s: Schema, w: World, rank: map<Id, nat>, before: World, mid: World, now: World, root: Id, newRoot: Id,
               subs: set<Id>, all: map<Id, Id>, mapping: map<Id, Id>, creator: Name)
    requires Forest(s, w, rank) && Extends(s, w, before) && root in w && subs <= Kids(s, w, rank, root)
    requires TreeSoFar(s, w, rank, before, mid, root, newRoot, subs, all, creator) && mapping == all - {root}
    requires CopyMap(mapping) && mapping.Keys <= w.Keys && mapping.Values !! before.Keys
    requires mapping.Keys <= mid.Keys && mapping.Values <= mid.Keys
    requires RowsRepaired(s, mid, now, mapping, mapping.Keys)
    ensures CopiesPlaced(s, w, rank, now, root, newRoot, mapping, creator)
    ensures Grown(before, now)
  {
    forall i | i in before ensures i in now && now[i] == before[i] {
      forall x | x in mapping ensures mapping[x] != i {
        assert mapping[x] in mapping.Values;
      }
    }
  }
}
