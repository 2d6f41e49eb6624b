/** The second pass of a deep copy: many-to-many links and missing foreign keys among the copies. */
module CopyLinks {

  import opened ObjectForest

  /** A relation, the row at its forward end, and the row at its other end. */
  type Link = (Name, Id, Id)

  /** Copies have rows of their own, which are not themselves copied. */
  ghost predicate CopyMap(mapping: map<Id, Id>) {
    && (forall x :: x in mapping ==> mapping[x] !in mapping)
    && (forall x, y :: x in mapping && y in mapping && mapping[x] == mapping[y] ==> x == y)
  }

  function Mapped(mapping: map<Id, Id>, r: Id): Id {
    if r in mapping then mapping[r] else r
  }

  predicate IsCopy(mapping: map<Id, Id>, r: Id) {
    r in mapping.Values
  }

  // ---------------------------------------------------------------- links

  function Related(relation: Name, forward: bool, x: Id, links: set<Link>): set<Id> {
    if forward then set l | l in links && l.0 == relation && l.1 == x :: l.2
    else set l | l in links && l.0 == relation && l.2 == x :: l.1
  }

  function Image(relation: Name, forward: bool, x: Id, r: Id, mapping: map<Id, Id>): Link
    requires x in mapping
  {
    if forward then (relation, mapping[x], Mapped(mapping, r)) else (relation, Mapped(mapping, r), mapping[x])
  }

  function Images(relation: Name, forward: bool, x: Id, mapping: map<Id, Id>, links: set<Link>): set<Link>
    requires x in mapping
  {
    set r | r in Related(relation, forward, x, links) :: Image(relation, forward, x, r, mapping)
  }

  /** What one field of x adds. */
  function FieldImages(f: Field, x: Id, mapping: map<Id, Id>, links: set<Link>): set<Link>
    requires x in mapping
  {
    if f.kind.ManyToMany? && f.preserved then Images(f.kind.relation, f.kind.forward, x, mapping, links) else {}
  }

  /** What the first i fields of x add. */
  ghost function RowImages(fields: seq<Field>, i: nat, x: Id, mapping: map<Id, Id>, links: set<Link>): set<Link>
    requires x in mapping && i <= |fields|
  {
    set j, l | 0 <= j < i && l in FieldImages(fields[j], x, mapping, links) :: l
  }

  ghost function AllImages(s: Schema, w: World, done: set<Id>, mapping: map<Id, Id>, links: set<Link>): set<Link>
    requires done <= mapping.Keys && done <= w.Keys
  {
    set x, l | x in done && l in RowImages(s.FieldsOf(w[x].model), |s.FieldsOf(w[x].model)|, x, mapping, links) :: l
  }

  predicate Preserves(s: Schema, model: Name, relation: Name, forward: bool) {
    exists f :: f in s.FieldsOf(model) && f.kind == ManyToMany(relation, forward) && f.preserved
  }

  /** Every link added hangs on a copy, so what is read for the rows being copied stays what it was. */
  lemma RelatedUnchanged(relation: Name, forward: bool, x: Id, mapping: map<Id, Id>, links: set<Link>, added: set<Link>)
    requires CopyMap(mapping) && x in mapping
    requires forall l :: l in added ==> l.1 !in mapping && l.2 !in mapping
    ensures Related(relation, forward, x, links + added) == Related(relation, forward, x, links)
  {
  }

  lemma ImagesAvoidOriginals(s: Schema, w: World, done: set<Id>, mapping: map<Id, Id>, links: set<Link>, l: Link)
    requires CopyMap(mapping) && done <= mapping.Keys && done <= w.Keys && l in AllImages(s, w, done, mapping, links)
    ensures l.1 !in mapping && l.2 !in mapping && (IsCopy(mapping, l.1) || IsCopy(mapping, l.2))
  {
  }

  /** The link stands because of a preserved field at one of its ends. */
  ghost predicate ImageOf(s: Schema, w: World, mapping: map<Id, Id>, links: set<Link>, x: Id, r: Id, forward: bool,
                          l: Link)
    requires mapping.Keys <= w.Keys
  {
    && x in mapping && Preserves(s, w[x].model, l.0, forward)
    && r in Related(l.0, forward, x, links) && l == Image(l.0, forward, x, r, mapping)
  }

  lemma ImageExplained(s: Schema, w: World, mapping: map<Id, Id>, links: set<Link>, l: Link)
    returns (x: Id, r: Id, forward: bool)
    requires mapping.Keys <= w.Keys && l in AllImages(s, w, mapping.Keys, mapping, links)
    ensures ImageOf(s, w, mapping, links, x, r, forward, l)
  {
    x :| x in mapping && l in RowImages(s.FieldsOf(w[x].model), |s.FieldsOf(w[x].model)|, x, mapping, links);
    var fields := s.FieldsOf(w[x].model);
    var j :| 0 <= j < |fields| && l in FieldImages(fields[j], x, mapping, links);
    forward := fields[j].kind.forward;
    r :| r in Related(fields[j].kind.relation, forward, x, links) &&
        l == Image(fields[j].kind.relation, forward, x, r, mapping);
    assert fields[j] in fields && fields[j].kind == ManyToMany(l.0, forward);
  }

  lemma ImageAdded(s: Schema, w: World, mapping: map<Id, Id>, links: set<Link>, x: Id, r: Id, forward: bool, l: Link)
    requires mapping.Keys <= w.Keys && ImageOf(s, w, mapping, links, x, r, forward, l)
    ensures l in AllImages(s, w, mapping.Keys, mapping, links)
  {
    var fields := s.FieldsOf(w[x].model);
    var f :| f in fields && f.kind == ManyToMany(l.0, forward) && f.preserved;
    var j :| 0 <= j < |fields| && fields[j] == f;
    assert l in FieldImages(fields[j], x, mapping, links);
    assert l in RowImages(fields, |fields|, x, mapping, links);
  }

  /** The links once every copied row has been visited. */
  ghost function Rebuilt(s: Schema, w: World, mapping: map<Id, Id>, links: set<Link>): set<Link>
    requires mapping.Keys <= w.Keys
  {
    links + AllImages(s, w, mapping.Keys, mapping, links)
  }

  ghost predicate Unlinked(mapping: map<Id, Id>, links: set<Link>) {
    forall l :: l in links ==> !IsCopy(mapping, l.1) && !IsCopy(mapping, l.2)
  }

  /** Two copies are linked exactly as their originals are, for every relation one of the two models preserves. */
  lemma CopiesLinkedAlike(s: Schema, w: World, mapping: map<Id, Id>, links: set<Link>, relation: Name, a: Id, b: Id)
    requires CopyMap(mapping) && mapping.Keys <= w.Keys && Unlinked(mapping, links) && a in mapping && b in mapping
    ensures (relation, mapping[a], mapping[b]) in Rebuilt(s, w, mapping, links) <==>
            (relation, a, b) in links && (Preserves(s, w[a].model, relation, true) ||
                                          Preserves(s, w[b].model, relation, false))
  {
    var l, old' := (relation, mapping[a], mapping[b]), (relation, a, b);
    if l in AllImages(s, w, mapping.Keys, mapping, links) {
      var x, r, forward := ImageExplained(s, w, mapping, links, l);
    }
    if old' in links {
      assert b in Related(relation, true, a, links) && a in Related(relation, false, b, links);
      if Preserves(s, w[a].model, relation, true) {
        ImageAdded(s, w, mapping, links, a, b, true, l);
      } else if Preserves(s, w[b].model, relation, false) {
        ImageAdded(s, w, mapping, links, b, a, false, l);
      }
    }
    assert IsCopy(mapping, mapping[a]);
  }

  /** A row that was not copied is linked to a copy exactly as it is to the original, for every relation the
      original's model preserves at its own end. */
  lemma OutsideLinkedAlike(s: Schema, w: World, mapping: map<Id, Id>, links: set<Link>, relation: Name, a: Id, r: Id)
    requires CopyMap(mapping) && mapping.Keys <= w.Keys && Unlinked(mapping, links) && a in mapping
    requires r !in mapping && !IsCopy(mapping, r)
    ensures (relation, mapping[a], r) in Rebuilt(s, w, mapping, links) <==>
            (relation, a, r) in links && Preserves(s, w[a].model, relation, true)
    ensures (relation, r, mapping[a]) in Rebuilt(s, w, mapping, links) <==>
            (relation, r, a) in links && Preserves(s, w[a].model, relation, false)
  {
    assert IsCopy(mapping, mapping[a]);
    OutsideLinked(s, w, mapping, links, relation, a, r, true);
    OutsideLinked(s, w, mapping, links, relation, a, r, false);
  }

  function Directed(relation: Name, forward: bool, a: Id, b: Id): Link {
    if forward then (relation, a, b) else (relation, b, a)
  }

  lemma OutsideLinked(s: Schema, w: World, mapping: map<Id, Id>, links: set<Link>, relation: Name, a: Id, r: Id,
                      forward: bool)
    requires CopyMap(mapping) && mapping.Keys <= w.Keys && a in mapping && r !in mapping && !IsCopy(mapping, r)
    ensures Directed(relation, forward, mapping[a], r) in AllImages(s, w, mapping.Keys, mapping, links) <==>
            Directed(relation, forward, a, r) in links && Preserves(s, w[a].model, relation, forward)
  {
    var l := Directed(relation, forward, mapping[a], r);
    if l in AllImages(s, w, mapping.Keys, mapping, links) {
      var x, q, fwd := ImageExplained(s, w, mapping, links, l);
      assert IsCopy(mapping, mapping[x]);
      assert fwd == forward && x == a;
    }
    if Directed(relation, forward, a, r) in links && Preserves(s, w[a].model, relation, forward) {
      assert r in Related(relation, forward, a, links);
      ImageAdded(s, w, mapping, links, a, r, forward, l);
    }
  }

  /** Links between rows that are not copies stay exactly as they were. */
  lemma OldLinksKept(s: Schema, w: World, mapping: map<Id, Id>, links: set<Link>, l: Link)
    requires CopyMap(mapping) && mapping.Keys <= w.Keys && !IsCopy(mapping, l.1) && !IsCopy(mapping, l.2)
    ensures l in Rebuilt(s, w, mapping, links) <==> l in links
  {
    if l in AllImages(s, w, mapping.Keys, mapping, links) {
      ImagesAvoidOriginals(s, w, mapping.Keys, mapping, links, l);
    }
  }

  // ---------------------------------------------------------------- foreign keys

  /** A foreign key still null on the copy gets the original's target, or that target's copy. */
  function RepairFk(f: Field, o: Obj, fks: map<Name, Id>, mapping: map<Id, Id>): map<Name, Id> {
    if f.kind.ForeignKey? && f.preserved && f.name !in fks && f.name in o.fks then
      fks[f.name := Mapped(mapping, o.fks[f.name])]
    else fks
  }

  ghost function RepairFks(fields: seq<Field>, i: nat, o: Obj, fks: map<Name, Id>, mapping: map<Id, Id>): map<Name, Id>
    requires i <= |fields|
  {
    if i == 0 then fks else RepairFk(fields[i - 1], o, RepairFks(fields, i - 1, o, fks, mapping), mapping)
  }

  ghost predicate PreservesFk(fields: seq<Field>, i: nat, name: Name)
    requires i <= |fields|
  {
    exists j :: 0 <= j < i && fields[j].kind.ForeignKey? && fields[j].preserved && fields[j].name == name
  }

  ghost function Repair(s: Schema, o: Obj, copy: Obj, mapping: map<Id, Id>): Obj {
    var fields := s.FieldsOf(o.model);
    copy.(fks := RepairFks(fields, |fields|, o, copy.fks, mapping))
  }

  lemma {:induction false} RepairedFks(fields: seq<Field>, i: nat, o: Obj, fks: map<Name, Id>, mapping: map<Id, Id>,
                                       name: Name)
    requires i <= |fields|
    ensures var after := RepairFks(fields, i, o, fks, mapping);
            && (name in fks ==> name in after && after[name] == fks[name])
            && (name !in fks ==> (name in after <==> PreservesFk(fields, i, name) && name in o.fks))
            && (name !in fks && name in after ==> after[name] == Mapped(mapping, o.fks[name]))
  {
    if i > 0 {
      RepairedFks(fields, i - 1, o, fks, mapping, name);
      var f := fields[i - 1];
      assert PreservesFk(fields, i, name) <==>
        PreservesFk(fields, i - 1, name) || (f.kind.ForeignKey? && f.preserved && f.name == name);
    }
  }

  /** Where the preserved foreign key `f` of a copy points in the end.  A key the first pass already copied is
      never redirected, so a key to another copied row names that row's copy only if it is the parent link, or
      if the first pass was told to skip the field. */
  lemma RedirectedExactly(s: Schema, o: Obj, f: Field, parent: Id, newParent: Id, creator: Name, mapping: map<Id, Id>)
    requires s.Valid() && CopyMap(mapping)
    requires f in s.FieldsOf(o.model) && f.kind.ForeignKey? && f.preserved && f.name in o.fks
    requires o.fks[f.name] in mapping && (parent in mapping ==> newParent == mapping[parent])
    ensures var after := Repair(s, o, CopyOf(s, o, parent, newParent, creator), mapping).fks;
            && f.name in after
            && (after[f.name] == mapping[o.fks[f.name]] <==> f.excluded || o.fks[f.name] == parent)
            && (after[f.name] != mapping[o.fks[f.name]] ==> after[f.name] == o.fks[f.name])
  {
    var fields, copy := s.FieldsOf(o.model), CopyOf(s, o, parent, newParent, creator);
    var j :| 0 <= j < |fields| && fields[j] == f;
    forall g | g in fields && g.name == f.name ensures g == f {
      FieldUnique(s, o.model, j, g);
    }
    assert f == Field(f.name, f.kind, f.preserved, f.excluded);
    RepairedFks(fields, |fields|, o, copy.fks, mapping, f.name);
  }

  const NODE_SCHEMA: Schema := Schema(map["node" := [
    Field("tree", ForeignKey, true, false), Field("peer", ForeignKey, true, false)]])

  /** Rows 2 and 3 hang below row 1, and row 3 has a preserved key to row 2.  The copy of row 3 keeps the key to row 2
      itself, though row 2 has been copied. */
  lemma KeyKeepsOriginal(creator: Name)
    ensures var o := Obj("node", map["tree" := 1, "peer" := 2], map[], "");
            Repair(NODE_SCHEMA, o, CopyOf(NODE_SCHEMA, o, 1, 11, creator), map[2 := 12, 3 := 13]).fks ==
            map["tree" := 11, "peer" := 2]
  {
    var o := Obj("node", map["tree" := 1, "peer" := 2], map[], "");
    var fields := NODE_SCHEMA.FieldsOf("node");
    assert "tree"[0] != "peer"[0];
    assert fields[0] in fields && fields[1] in fields;
    var copy := CopyOf(NODE_SCHEMA, o, 1, 11, creator);
    assert copy.fks == map["tree" := 11, "peer" := 2];
    assert RepairFks(fields, 1, o, copy.fks, map[2 := 12, 3 := 13]) == copy.fks;
    assert RepairFks(fields, 2, o, copy.fks, map[2 := 12, 3 := 13]) == copy.fks;
  }
}
