/** Trees of objects joined by the one-to-many links a copy follows, and what a copy of such a tree is. */
module ObjectForest {
  import opened Wrappers

  type Id = nat
  type Name = string

  /** One-to-many fields name the child model and the child's foreign key; many-to-many fields name
      the relation and the end of it this model stands at. */
  datatype Kind =
    | OneToMany(childModel: Name, via: Name)
    | ManyToMany(relation: Name, forward: bool)
    | ForeignKey
    | Value

  /** `excluded` covers the discarded fields, the ids, the authorship fields and the role fields. */
  datatype Field = Field(name: Name, kind: Kind, preserved: bool, excluded: bool)

  datatype Schema = Schema(models: map<Name, seq<Field>>) {
    function FieldsOf(model: Name): seq<Field> {
      if model in models then models[model] else []
    }

    ghost predicate Valid() {
      forall m, i, j :: m in models && 0 <= i < j < |models[m]| ==> models[m][i].name != models[m][j].name
    }

    /** The one-to-many fields a copy follows. */
    predicate Follows(model: Name, f: Field) {
      f in FieldsOf(model) && f.kind.OneToMany? && f.preserved && !f.excluded
    }

    predicate Copies(model: Name, name: Name, kind: Kind) {
      Field(name, kind, true, false) in FieldsOf(model)
    }

    predicate Considers(model: Name, name: Name, kind: Kind) {
      Field(name, kind, true, false) in FieldsOf(model) || Field(name, kind, false, false) in FieldsOf(model)
    }
  }

  /** A row; a null foreign key is absent. */
  datatype Obj = Obj(model: Name, fks: map<Name, Id>, values: map<Name, string>, creator: Name)

  type World = map<Id, Obj>

  // ---------------------------------------------------------------- the copy of one object

  predicate CopiesFk(s: Schema, o: Obj, f: Name, oldParent: Id) {
    f in o.fks && s.Considers(o.model, f, ForeignKey) &&
    (o.fks[f] == oldParent || s.Copies(o.model, f, ForeignKey))
  }

  /** Links to the old parent go to the new one, preserved links and values are kept, the rest is dropped. */
  function CopyOf(s: Schema, o: Obj, oldParent: Id, newParent: Id, creator: Name): Obj {
    Obj(o.model,
        map f | f in o.fks && CopiesFk(s, o, f, oldParent) :: if o.fks[f] == oldParent then newParent else o.fks[f],
        map f | f in o.values && s.Copies(o.model, f, Value) :: o.values[f],
        creator)
  }

  /** The model has such a field that is not excluded, and is preserved where that is asked for. */
  ghost predicate Declares(s: Schema, model: Name, name: Name, kind: Kind, preserved: bool) {
    model in s.models && exists i :: 0 <= i < |s.models[model]| && Fits(s.models[model][i], name, kind, preserved)
  }

  predicate Fits(f: Field, name: Name, kind: Kind, preserved: bool) {
    f.name == name && f.kind == kind && !f.excluded && (preserved ==> f.preserved)
  }

  /** Field by field: a link to the old parent is turned to the new one, if its field is not excluded; any other is kept
      if the field is also preserved; so is a value; nothing else is there. */
  lemma CopyExactly(s: Schema, o: Obj, oldParent: Id, newParent: Id, creator: Name, f: Name)
    ensures var copy := CopyOf(s, o, oldParent, newParent, creator);
            && copy.model == o.model && copy.creator == creator
            && (f in copy.fks <==> f in o.fks && Declares(s, o.model, f, ForeignKey, o.fks[f] != oldParent))
            && (f in copy.fks ==> copy.fks[f] == if o.fks[f] == oldParent then newParent else o.fks[f])
            && (f in copy.values <==> f in o.values && Declares(s, o.model, f, Value, true))
            && (f in copy.values ==> copy.values[f] == o.values[f])
  {
    Declared(s, o.model, f, ForeignKey);
    Declared(s, o.model, f, Value);
  }

  lemma Declared(s: Schema, model: Name, name: Name, kind: Kind)
    ensures Declares(s, model, name, kind, true) <==> s.Copies(model, name, kind)
    ensures Declares(s, model, name, kind, false) <==> s.Considers(model, name, kind)
  {
    var fields := s.FieldsOf(model);
    forall i | 0 <= i < |fields| && fields[i].name == name && fields[i].kind == kind && !fields[i].excluded
      ensures fields[i] == Field(name, kind, fields[i].preserved, false)
    {
    }
    if s.Copies(model, name, kind) {
      var i :| 0 <= i < |fields| && fields[i] == Field(name, kind, true, false);
      assert Fits(fields[i], name, kind, true);
    }
    if s.Considers(model, name, kind) {
      var i :| 0 <= i < |fields| && fields[i] in {Field(name, kind, true, false), Field(name, kind, false, false)};
      assert Fits(fields[i], name, kind, false);
    }
  }

  // ---------------------------------------------------------------- the forest

  /** c is listed by field f of p. */
  predicate ChildVia(s: Schema, w: World, p: Id, f: Field, c: Obj) {
    p in w && s.Follows(w[p].model, f) && c.model == f.kind.childModel && f.kind.via in c.fks && c.fks[f.kind.via] == p
  }

  ghost predicate IsChild(s: Schema, w: World, p: Id, c: Obj) {
    exists f :: ChildVia(s, w, p, f, c)
  }

  /** Every object is listed by at most one followed field of one object, of higher rank. */
  ghost predicate Forest(s: Schema, w: World, rank: map<Id, nat>) {
    && rank.Keys == w.Keys
    && (forall c, p, f :: c in w && ChildVia(s, w, p, f, w[c]) ==> rank[c] < rank[p])
    && (forall c, p, f, q, g :: c in w && ChildVia(s, w, p, f, w[c]) && ChildVia(s, w, q, g, w[c]) ==> p == q && f == g)
  }

  ghost function Kids(s: Schema, w: World, rank: map<Id, nat>, p: Id): (r: set<Id>)
    requires Forest(s, w, rank) && p in w
    ensures forall c :: c in r ==> c in w && rank[c] < rank[p]
  {
    set c | c in w && IsChild(s, w, p, w[c])
  }

  /** The children are the rows whose foreign key names the parent, for each one-to-many field of the parent's model
      that is preserved and not excluded, and of that field's model. */
  lemma KidsExactly(s: Schema, w: World, rank: map<Id, nat>, p: Id, c: Id)
    requires Forest(s, w, rank) && p in w && w[p].model in s.models
    ensures c in Kids(s, w, rank, p) <==>
            c in w && exists i, via ::
              && 0 <= i < |s.models[w[p].model]|
              && s.models[w[p].model][i].kind == OneToMany(w[c].model, via)
              && s.models[w[p].model][i].preserved && !s.models[w[p].model][i].excluded
              && via in w[c].fks && w[c].fks[via] == p
  {
    var fields := s.models[w[p].model];
    if c in Kids(s, w, rank, p) {
      var f :| ChildVia(s, w, p, f, w[c]);
      var i :| 0 <= i < |fields| && fields[i] == f;
      assert fields[i].kind == OneToMany(w[c].model, f.kind.via);
    }
    if i, via :| c in w && 0 <= i < |fields| && fields[i].kind == OneToMany(w[c].model, via) && fields[i].preserved &&
                 !fields[i].excluded && via in w[c].fks && w[c].fks[via] == p {
      assert ChildVia(s, w, p, fields[i], w[c]);
    }
  }

  /** An object and everything below it. */
  ghost function Subtree(s: Schema, w: World, rank: map<Id, nat>, x: Id): (r: set<Id>)
    requires Forest(s, w, rank) && x in w
    ensures x in r && r <= w.Keys && forall y :: y in r ==> rank[y] <= rank[x]
    decreases rank[x], 1
  {
    {x} + Below(s, w, rank, x, Kids(s, w, rank, x))
  }

  /** The subtrees of some of the children of x. */
  ghost function Below(s: Schema, w: World, rank: map<Id, nat>, x: Id, kids: set<Id>): (r: set<Id>)
    requires Forest(s, w, rank) && x in w && kids <= Kids(s, w, rank, x)
    ensures r <= w.Keys && forall y :: y in r ==> rank[y] < rank[x]
    decreases rank[x], 0
  {
    set c, y | c in kids && y in Subtree(s, w, rank, c) :: y
  }

  /** Below the top of a subtree, everything has its parent in the subtree. */
  lemma {:induction false} ParentInSubtree(s: Schema, w: World, rank: map<Id, nat>, x: Id, y: Id) returns (p: Id)
    requires Forest(s, w, rank) && x in w && y in Subtree(s, w, rank, x) && y != x
    ensures p in Subtree(s, w, rank, x) && y in Kids(s, w, rank, p)
    decreases rank[x]
  {
    var c :| c in Kids(s, w, rank, x) && y in Subtree(s, w, rank, c);
    if y == c {
      p := x;
    } else {
      p := ParentInSubtree(s, w, rank, c, y);
    }
  }

  /** The subtrees of two children of one object share nothing. */
  lemma {:induction false} SubtreesDisjoint(s: Schema, w: World, rank: map<Id, nat>, x: Id, c: Id, d: Id, y: Id)
    requires Forest(s, w, rank) && x in w && c in Kids(s, w, rank, x) && d in Kids(s, w, rank, x)
    requires y in Subtree(s, w, rank, c) && y in Subtree(s, w, rank, d)
    ensures c == d
    decreases rank[x] - rank[y]
  {
    if y != c && y != d {
      var p := ParentInSubtree(s, w, rank, c, y);
      var q := ParentInSubtree(s, w, rank, d, y);
      OneParent(s, w, rank, p, q, y);
      SubtreesDisjoint(s, w, rank, x, c, d, p);
    } else if c != d {
      var top, other := if y == c then c else d, if y == c then d else c;
      var p := ParentInSubtree(s, w, rank, other, top);
      OneParent(s, w, rank, p, x, top);
    }
  }

  lemma OneParent(s: Schema, w: World, rank: map<Id, nat>, p: Id, q: Id, y: Id)
    requires Forest(s, w, rank) && p in w && q in w && y in Kids(s, w, rank, p) && y in Kids(s, w, rank, q)
    ensures p == q
  {
    var f :| ChildVia(s, w, p, f, w[y]);
    var g :| ChildVia(s, w, q, g, w[y]);
  }

  // ---------------------------------------------------------------- the store

  /** The rows of `old` are as they were, and nothing else is listed by any of them. */
  ghost predicate Extends(s: Schema, old': World, now: World) {
    && (forall i :: i in old' ==> i in now && now[i] == old'[i])
    && (forall i, p :: i in now && i !in old' ==> !IsChild(s, old', p, now[i]))
  }

  /** A copy of an object, linked to a new parent, is not listed by any old object. */
  lemma CopyIsNobodysChild(s: Schema, w: World, rank: map<Id, nat>, oldParent: Id, x: Id, newParent: Id, creator: Name,
                           p: Id)
    requires s.Valid() && Forest(s, w, rank) && oldParent in w && x in Kids(s, w, rank, oldParent) && newParent !in w
    ensures !IsChild(s, w, p, CopyOf(s, w[x], oldParent, newParent, creator))
  {
    var o, copy := w[x], CopyOf(s, w[x], oldParent, newParent, creator);
    var g :| ChildVia(s, w, oldParent, g, o);
    forall f ensures !ChildVia(s, w, p, f, copy) {
      if ChildVia(s, w, p, f, copy) {
        var via := f.kind.via;
        assert o.fks[via] == p && p != oldParent;
        assert ChildVia(s, w, p, f, o);
        assert false;
      }
    }
  }

  /** The objects `ids` have copies of their own, each below its parent's copy. */
  ghost predicate Linked(s: Schema, w: World, rank: map<Id, nat>, now: World, ids: set<Id>, ret: map<Id, Id>,
                         creator: Name)
    requires Forest(s, w, rank)
  {
    && ret.Keys == ids && ids <= w.Keys
    && (forall y, z :: y in ret && z in ret && ret[y] == ret[z] ==> y == z)
    && (forall y :: y in ret ==> ret[y] in now && ret[y] !in w)
    && (forall y, c :: y in ret && c in Kids(s, w, rank, y) && c in ret ==>
          now[ret[c]] == CopyOf(s, w[c], y, ret[y], creator))
  }

  /** The whole subtree of x has been copied, and x itself below the new parent. */
  ghost predicate CopiedTree(s: Schema, w: World, rank: map<Id, nat>, now: World, x: Id, ret: map<Id, Id>,
                             oldParent: Id, newParent: Id, creator: Name)
    requires Forest(s, w, rank) && x in w
  {
    && Linked(s, w, rank, now, Subtree(s, w, rank, x), ret, creator)
    && now[ret[x]] == CopyOf(s, w[x], oldParent, newParent, creator)
  }

  lemma {:induction false} KidsInSubtree(s: Schema, w: World, rank: map<Id, nat>, x: Id, y: Id, c: Id)
    requires Forest(s, w, rank) && x in w && y in Subtree(s, w, rank, x) && c in Kids(s, w, rank, y)
    ensures c in Subtree(s, w, rank, x)
    decreases rank[x]
  {
    if y != x {
      var k :| k in Kids(s, w, rank, x) && y in Subtree(s, w, rank, k);
      KidsInSubtree(s, w, rank, k, y, c);
    } else {
      assert c in Subtree(s, w, rank, c);
    }
  }

  lemma NewSubtreeDisjoint(s: Schema, w: World, rank: map<Id, nat>, x: Id, kids: set<Id>, c: Id)
    requires Forest(s, w, rank) && x in w && kids <= Kids(s, w, rank, x) && c in Kids(s, w, rank, x) && c !in kids
    ensures ({x} + Below(s, w, rank, x, kids)) !! Subtree(s, w, rank, c)
    ensures Below(s, w, rank, x, kids + {c}) == Below(s, w, rank, x, kids) + Subtree(s, w, rank, c)
  {
    forall y | y in Below(s, w, rank, x, kids) && y in Subtree(s, w, rank, c) ensures false {
      var d :| d in kids && y in Subtree(s, w, rank, d);
      SubtreesDisjoint(s, w, rank, x, c, d, y);
    }
  }

  /** Adding the copied subtree of one more child to a partly copied tree. */
  lemma MergeTrees(s: Schema, w: World, rank: map<Id, nat>, now1: World, now2: World, x: Id, c: Id, ids: set<Id>,
                   ret1: map<Id, Id>, ret2: map<Id, Id>, creator: Name)
    requires Forest(s, w, rank) && x in w && x in ids && c in Kids(s, w, rank, x)
    requires ids !! Subtree(s, w, rank, c)
    requires Linked(s, w, rank, now1, ids, ret1, creator)
    requires CopiedTree(s, w, rank, now2, c, ret2, x, ret1[x], creator)
    requires Grown(now1, now2) && forall y :: y in ret2 ==> ret2[y] !in now1
    ensures Linked(s, w, rank, now2, ids + Subtree(s, w, rank, c), ret1 + ret2, creator)
  {
    var sub, ret := Subtree(s, w, rank, c), ret1 + ret2;
    assert x !in sub;
    forall y, k | y in ret && k in Kids(s, w, rank, y) && k in ret
      ensures now2[ret[k]] == CopyOf(s, w[k], y, ret[y], creator)
    {
      if k in sub {
        if k == c {
          OneParent(s, w, rank, x, y, c);
        } else {
          var p := ParentInSubtree(s, w, rank, c, k);
          OneParent(s, w, rank, p, y, k);
        }
      } else if y in sub {
        KidsInSubtree(s, w, rank, c, y, k);
      }
    }
  }

  /** Since `mid`, in which x has the copy `id`, the subtrees of some of its children have been copied. */
  ghost predicate TreeSoFar(s: Schema, w: World, rank: map<Id, nat>, mid: World, now: World, x: Id, id: Id,
                            kids: set<Id>, ret: map<Id, Id>, creator: Name)
    requires Forest(s, w, rank) && x in w && kids <= Kids(s, w, rank, x)
  {
    && Extends(s, w, now) && Grown(mid, now) && x in ret && ret[x] == id
    && Linked(s, w, rank, now, {x} + Below(s, w, rank, x, kids), ret, creator)
    && forall y :: y in ret && y != x ==> ret[y] !in mid
  }

  lemma TreeStarts(s: Schema, w: World, rank: map<Id, nat>, mid: World, x: Id, id: Id, kids: set<Id>, creator: Name)
    requires Forest(s, w, rank) && x in w && Extends(s, w, mid) && id in mid && id !in w && kids == {}
    ensures TreeSoFar(s, w, rank, mid, mid, x, id, kids, map[x := id], creator)
  {
    assert Below(s, w, rank, x, kids) == {};
    assert forall k :: k in Kids(s, w, rank, x) ==> k != x;
  }

  lemma TreeGrows(s: Schema, w: World, rank: map<Id, nat>, mid: World, now1: World, now2: World, x: Id, id: Id,
                  kids: set<Id>, c: Id, ret1: map<Id, Id>, ret2: map<Id, Id>, creator: Name)
    requires Forest(s, w, rank) && x in w && kids <= Kids(s, w, rank, x) && c in Kids(s, w, rank, x) && c !in kids
    requires TreeSoFar(s, w, rank, mid, now1, x, id, kids, ret1, creator)
    requires CopiedTree(s, w, rank, now2, c, ret2, x, ret1[x], creator)
    requires Extends(s, w, now2) && Grown(now1, now2) && forall y :: y in ret2 ==> ret2[y] !in now1
    ensures TreeSoFar(s, w, rank, mid, now2, x, id, kids + {c}, ret1 + ret2, creator)
  {
    TreeGrowsLinked(s, w, rank, now1, now2, x, kids, c, ret1, ret2, creator);
    assert x !in ret2;
  }

  lemma TreeGrowsLinked(s: Schema, w: World, rank: map<Id, nat>, now1: World, now2: World, x: Id, kids: set<Id>,
                        c: Id, ret1: map<Id, Id>, ret2: map<Id, Id>, creator: Name)
    requires Forest(s, w, rank) && x in w && kids <= Kids(s, w, rank, x) && c in Kids(s, w, rank, x) && c !in kids
    requires Linked(s, w, rank, now1, {x} + Below(s, w, rank, x, kids), ret1, creator) && x in ret1
    requires CopiedTree(s, w, rank, now2, c, ret2, x, ret1[x], creator)
    requires Grown(now1, now2) && forall y :: y in ret2 ==> ret2[y] !in now1
    ensures Linked(s, w, rank, now2, {x} + Below(s, w, rank, x, kids + {c}), ret1 + ret2, creator)
    ensures x !in ret2
  {
    NewSubtreeDisjoint(s, w, rank, x, kids, c);
    var sub, some, all := Subtree(s, w, rank, c), Below(s, w, rank, x, kids), Below(s, w, rank, x, kids + {c});
    MergeTrees(s, w, rank, now1, now2, x, c, {x} + some, ret1, ret2, creator);
    Regroup(x, some, sub, all);
    assert x !in sub && ret2.Keys == sub;
  }

  lemma Regroup(x: Id, some: set<Id>, sub: set<Id>, all: set<Id>)
    requires all == some + sub
    ensures {x} + some + sub == {x} + all
  {
  }

  /** `done` and `todo` share nothing and make up `all`. */
  ghost predicate Split(all: set<Id>, done: set<Id>, todo: set<Id>) {
    all == done + todo && done !! todo
  }

  lemma SplitStep(all: set<Id>, done: set<Id>, todo: set<Id>, c: Id)
    requires Split(all, done, todo) && c in todo
    ensures Split(all, done + {c}, todo - {c}) && c !in done
  {
  }

  lemma SplitEnd(all: set<Id>, done: set<Id>)
    requires Split(all, done, {})
    ensures all == done
  {
  }

  lemma OneMoreElement(xs: seq<Id>, i: nat)
    requires i < |xs| && forall j, k :: 0 <= j < k < |xs| ==> xs[j] != xs[k]
    ensures Elements(xs[..i + 1]) == Elements(xs[..i]) + {xs[i]} && xs[i] !in Elements(xs[..i])
  {
    assert xs[..i + 1] == xs[..i] + [xs[i]];
  }

  lemma CreatedExtends(s: Schema, w: World, rank: map<Id, nat>, before: World, now: World, x: Id, id: Id,
                       oldParent: Id, newParent: Id, creator: Name)
    requires s.Valid() && Forest(s, w, rank) && Extends(s, w, before) && id !in before
    requires oldParent in w && x in Kids(s, w, rank, oldParent) && newParent !in w
    requires now == before[id := CopyOf(s, w[x], oldParent, newParent, creator)]
    ensures Extends(s, w, now)
  {
    forall p ensures !IsChild(s, w, p, now[id]) {
      CopyIsNobodysChild(s, w, rank, oldParent, x, newParent, creator, p);
    }
  }

  function ChildrenVia(s: Schema, w: World, x: Id, f: Field): set<Id> {
    set c | c in w && ChildVia(s, w, x, f, w[c])
  }

  ghost predicate Grown(before: World, after: World) {
    forall i :: i in before ==> i in after && after[i] == before[i]
  }

  /** The children listed by the first i fields of x. */
  ghost function KidsUpTo(s: Schema, w: World, rank: map<Id, nat>, x: Id, i: nat): (r: set<Id>)
    requires Forest(s, w, rank) && x in w && i <= |s.FieldsOf(w[x].model)|
    ensures r <= Kids(s, w, rank, x)
  {
    set c | c in w && exists j :: 0 <= j < i && ChildVia(s, w, x, s.FieldsOf(w[x].model)[j], w[c])
  }

  lemma KidsStep(s: Schema, w: World, rank: map<Id, nat>, x: Id, i: nat)
    requires s.Valid() && Forest(s, w, rank) && x in w && i < |s.FieldsOf(w[x].model)|
    ensures var f := s.FieldsOf(w[x].model)[i];
            var via := ChildrenVia(s, w, x, f);
            && KidsUpTo(s, w, rank, x, i + 1) == KidsUpTo(s, w, rank, x, i) + via
            && KidsUpTo(s, w, rank, x, i) !! via
            && via <= Kids(s, w, rank, x)
            && (!(f.kind.OneToMany? && f.preserved && !f.excluded) ==> via == {})
  {
  }

  lemma SameChildren(s: Schema, w: World, now: World, x: Id, f: Field)
    requires Extends(s, w, now) && x in w
    ensures ChildrenVia(s, now, x, f) == ChildrenVia(s, w, x, f)
  {
    forall c | c in now && ChildVia(s, now, x, f, now[c]) ensures c in w {
      assert ChildVia(s, w, x, f, now[c]);
      assert IsChild(s, w, x, now[c]);
    }
  }

  lemma AllKids(s: Schema, w: World, rank: map<Id, nat>, x: Id)
    requires Forest(s, w, rank) && x in w
    ensures KidsUpTo(s, w, rank, x, |s.FieldsOf(w[x].model)|) == Kids(s, w, rank, x)
  {
    forall c | c in Kids(s, w, rank, x) ensures c in KidsUpTo(s, w, rank, x, |s.FieldsOf(w[x].model)|) {
      var f :| ChildVia(s, w, x, f, w[c]);
      var j :| 0 <= j < |s.FieldsOf(w[x].model)| && s.FieldsOf(w[x].model)[j] == f;
    }
  }

  // ---------------------------------------------------------------- the fields seen so far

  /** The links and values collected from the first i fields. */
  ghost function CollectedFks(s: Schema, o: Obj, oldParent: Id, newParent: Id, i: nat): map<Name, Id>
    requires i <= |s.FieldsOf(o.model)|
  {
    if i == 0 then map[]
    else
      var f, before := s.FieldsOf(o.model)[i - 1], CollectedFks(s, o, oldParent, newParent, i - 1);
      if f.kind.ForeignKey? && !f.excluded && f.name in o.fks && (o.fks[f.name] == oldParent || f.preserved) then
        before[f.name := if o.fks[f.name] == oldParent then newParent else o.fks[f.name]]
      else before
  }

  ghost function CollectedValues(s: Schema, o: Obj, i: nat): map<Name, string>
    requires i <= |s.FieldsOf(o.model)|
  {
    if i == 0 then map[]
    else
      var f, before := s.FieldsOf(o.model)[i - 1], CollectedValues(s, o, i - 1);
      if f.kind.Value? && !f.excluded && f.preserved && f.name in o.values then
        before[f.name := o.values[f.name]]
      else before
  }

  lemma {:induction false} AllFksCollected(s: Schema, o: Obj, oldParent: Id, newParent: Id, i: nat)
    requires s.Valid() && i <= |s.FieldsOf(o.model)|
    ensures CollectedFks(s, o, oldParent, newParent, i) == FksOf(s, o, oldParent, newParent, i)
  {
    if i > 0 {
      AllFksCollected(s, o, oldParent, newParent, i - 1);
      FksStep(s, o, oldParent, newParent, i - 1);
    }
  }

  lemma {:induction false} AllValuesCollected(s: Schema, o: Obj, i: nat)
    requires s.Valid() && i <= |s.FieldsOf(o.model)|
    ensures CollectedValues(s, o, i) == ValuesOf(s, o, i)
  {
    if i > 0 {
      AllValuesCollected(s, o, i - 1);
      ValuesStep(s, o, i - 1);
    }
  }

  ghost function NamesUpTo(fields: seq<Field>, i: nat): set<Name>
    requires i <= |fields|
  {
    set j | 0 <= j < i :: fields[j].name
  }

  ghost function FksOf(s: Schema, o: Obj, oldParent: Id, newParent: Id, i: nat): map<Name, Id>
    requires i <= |s.FieldsOf(o.model)|
  {
    map f | f in o.fks && CopiesFk(s, o, f, oldParent) && f in NamesUpTo(s.FieldsOf(o.model), i) ::
      if o.fks[f] == oldParent then newParent else o.fks[f]
  }

  ghost function ValuesOf(s: Schema, o: Obj, i: nat): map<Name, string>
    requires i <= |s.FieldsOf(o.model)|
  {
    map f | f in o.values && s.Copies(o.model, f, Value) && f in NamesUpTo(s.FieldsOf(o.model), i) :: o.values[f]
  }

  lemma FieldUnique(s: Schema, model: Name, i: nat, g: Field)
    requires s.Valid() && i < |s.FieldsOf(model)| && g in s.FieldsOf(model) && g.name == s.FieldsOf(model)[i].name
    ensures g == s.FieldsOf(model)[i]
  {
  }

  lemma FieldStep(s: Schema, o: Obj, oldParent: Id, newParent: Id, i: nat)
    requires s.Valid() && i < |s.FieldsOf(o.model)|
    ensures var f := s.FieldsOf(o.model)[i];
            && (s.Copies(o.model, f.name, ForeignKey) <==> f.kind.ForeignKey? && f.preserved && !f.excluded)
            && (s.Considers(o.model, f.name, ForeignKey) <==> f.kind.ForeignKey? && !f.excluded)
            && (s.Copies(o.model, f.name, Value) <==> f.kind.Value? && f.preserved && !f.excluded)
            && f.name !in NamesUpTo(s.FieldsOf(o.model), i)
            && NamesUpTo(s.FieldsOf(o.model), i + 1) == NamesUpTo(s.FieldsOf(o.model), i) + {f.name}
  {
    var fields := s.FieldsOf(o.model);
    var f := fields[i];
    assert f == Field(f.name, f.kind, f.preserved, f.excluded);
    forall g | g in fields && g.name == f.name ensures g == f {
      FieldUnique(s, o.model, i, g);
    }
  }

  lemma FksStep(s: Schema, o: Obj, oldParent: Id, newParent: Id, i: nat)
    requires s.Valid() && i < |s.FieldsOf(o.model)|
    ensures var f := s.FieldsOf(o.model)[i];
            var before, after := FksOf(s, o, oldParent, newParent, i), FksOf(s, o, oldParent, newParent, i + 1);
            if f.kind.ForeignKey? && !f.excluded && f.name in o.fks && (o.fks[f.name] == oldParent || f.preserved) then
              after == before[f.name := if o.fks[f.name] == oldParent then newParent else o.fks[f.name]]
            else after == before
  {
    FieldStep(s, o, oldParent, newParent, i);
  }

  lemma ValuesStep(s: Schema, o: Obj, i: nat)
    requires s.Valid() && i < |s.FieldsOf(o.model)|
    ensures var f := s.FieldsOf(o.model)[i];
            if f.kind.Value? && !f.excluded && f.preserved && f.name in o.values then
              ValuesOf(s, o, i + 1) == ValuesOf(s, o, i)[f.name := o.values[f.name]]
            else ValuesOf(s, o, i + 1) == ValuesOf(s, o, i)
  {
    FieldStep(s, o, 0, 0, i);
  }

  lemma AllFields(s: Schema, o: Obj, oldParent: Id, newParent: Id, creator: Name)
    ensures var n := |s.FieldsOf(o.model)|;
            Obj(o.model, FksOf(s, o, oldParent, newParent, n), ValuesOf(s, o, n), creator) ==
            CopyOf(s, o, oldParent, newParent, creator)
  {
    var fields := s.FieldsOf(o.model);
    forall f | f in fields ensures f.name in NamesUpTo(fields, |fields|) {
      var j :| 0 <= j < |fields| && fields[j] == f;
    }
    assert FksOf(s, o, oldParent, newParent, |fields|) == CopyOf(s, o, oldParent, newParent, creator).fks;
    assert ValuesOf(s, o, |fields|) == CopyOf(s, o, oldParent, newParent, creator).values;
  }
}
