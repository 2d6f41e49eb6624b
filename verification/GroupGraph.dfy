/** Inventory groups and the repair of the group graph when one group is deleted.

    An inventory holds groups and hosts, a many-to-many relation from groups to child
    groups and one from groups to member hosts.  Deleting a group hands its hosts and
    child groups to every surviving parent: vertex elimination on a directed graph that
    may contain cycles and self-links. */
module GroupGraph {
  import opened Wrappers

  datatype Node = Group(pk: nat) | Host(pk: nat)

  datatype Graph = Graph(
    groups: set<nat>, hosts: set<nat>,
    children: set<(nat, nat)>,   // (parent group, child group)
    members: set<(nat, nat)>)    // (group, host)
  {
    /** The link tables only mention existing rows. */
    ghost predicate Valid() {
      && (forall e :: e in children ==> e.0 in groups && e.1 in groups)
      && (forall e :: e in members ==> e.0 in groups && e.1 in hosts)
    }

    predicate Edge(p: nat, x: Node) {
      match x
      case Group(c) => (p, c) in children
      case Host(h) => (p, h) in members
    }

    /** A chain of direct links from group p through the groups `inner` to x. */
    ghost predicate Chain(p: nat, inner: seq<nat>, x: Node)
      decreases |inner|
    {
      if inner == [] then Edge(p, x)
      else Edge(p, Group(inner[0])) && Chain(inner[0], inner[1..], x)
    }

    ghost predicate Reaches(p: nat, x: Node) {
      exists inner :: Chain(p, inner, x)
    }

    ghost predicate Acyclic() {
      forall p :: !Reaches(p, Group(p))
    }
  }

  /** The graph left behind by deleting group d. */
  function Eliminate(g: Graph, d: nat): Graph {
    var rest := g.groups - {d};
    Graph(
      rest,
      g.hosts,
      set p, c | p in rest && c in rest &&
                 ((p, c) in g.children || ((p, d) in g.children && (d, c) in g.children)) :: (p, c),
      set p, h | p in rest && h in g.hosts &&
                 ((p, h) in g.members || ((p, d) in g.children && (d, h) in g.members)) :: (p, h))
  }

  /** The graph after deleting the groups ds one at a time, in that order. */
  function DeleteAll(g: Graph, ds: seq<nat>): Graph
    decreases |ds|
  {
    if ds == [] then g else DeleteAll(Eliminate(g, ds[0]), ds[1..])
  }

  /** A run ends with its last deletion. */
  lemma {:induction false} RunEnds(g: Graph, ds: seq<nat>, d: nat)
    ensures DeleteAll(g, []) == g && DeleteAll(g, ds + [d]) == Eliminate(DeleteAll(g, ds), d)
    decreases |ds|
  {
    if ds == [] {
      assert [] + [d] == [d] && [d][1..] == [];
    } else {
      assert (ds + [d])[1..] == ds[1..] + [d];
      RunEnds(Eliminate(g, ds[0]), ds[1..], d);
    }
  }

  predicate Survives(x: Node, ds: set<nat>) {
    x.Group? ==> x.pk !in ds
  }

  // ---------------------------------------------------------------- one deletion

  lemma EliminateValid(g: Graph, d: nat)
    requires g.Valid()
    ensures Eliminate(g, d).Valid()
  {
  }

  lemma EliminateEdge(g: Graph, d: nat, p: nat, x: Node)
    requires g.Valid()
    ensures Eliminate(g, d).Edge(p, x) <==>
            p != d && x != Group(d) && (g.Edge(p, x) || (g.Edge(p, Group(d)) && g.Edge(d, x)))
  {
    match x
    case Group(c) =>
      assert g.Edge(p, x) ==> p in g.groups && c in g.groups;
    case Host(h) =>
      assert g.Edge(p, x) ==> p in g.groups && h in g.hosts;
  }

  /** Every chain of the repaired graph is a chain of the original, possibly with detours through d. */
  lemma {:induction false} ExpandChain(g: Graph, d: nat, p: nat, inner: seq<nat>, x: Node) returns (full: seq<nat>)
    requires g.Valid() && Eliminate(g, d).Chain(p, inner, x)
    ensures g.Chain(p, full, x)
    ensures forall q :: q in full ==> q in inner || q == d
    ensures p != d && x != Group(d)
    decreases |inner|
  {
    if inner == [] {
      EliminateEdge(g, d, p, x);
      full := if g.Edge(p, x) then [] else [d];
    } else {
      EliminateEdge(g, d, p, Group(inner[0]));
      var rest := ExpandChain(g, d, inner[0], inner[1..], x);
      if g.Edge(p, Group(inner[0])) {
        full := [inner[0]] + rest;
        assert full[1..] == rest;
      } else {
        full := [d, inner[0]] + rest;
        assert full[1..] == [inner[0]] + rest && full[1..][1..] == rest;
      }
    }
  }

  /** A chain between survivors still exists after d is gone: visits to d, repeated or not, are bridged. */
  lemma {:induction false} BridgeChain(g: Graph, d: nat, p: nat, inner: seq<nat>, x: Node) returns (short: seq<nat>)
    requires g.Valid() && g.Chain(p, inner, x) && p != d && x != Group(d)
    ensures Eliminate(g, d).Chain(p, short, x)
    ensures forall q :: q in short ==> q in inner && q != d
    decreases |inner|, 1
  {
    if inner == [] {
      EliminateEdge(g, d, p, x);
      short := [];
    } else if inner[0] == d {
      short := BridgeFrom(g, d, p, inner[1..], x);
    } else {
      var rest := BridgeChain(g, d, inner[0], inner[1..], x);
      EliminateEdge(g, d, p, Group(inner[0]));
      short := [inner[0]] + rest;
      assert short[1..] == rest;
    }
  }

  /** As BridgeChain, for the part of a chain that starts at d and was entered from p. */
  lemma {:induction false} BridgeFrom(g: Graph, d: nat, p: nat, inner: seq<nat>, x: Node) returns (short: seq<nat>)
    requires g.Valid() && g.Edge(p, Group(d)) && g.Chain(d, inner, x) && p != d && x != Group(d)
    ensures Eliminate(g, d).Chain(p, short, x)
    ensures forall q :: q in short ==> q in inner && q != d
    decreases |inner|, 0
  {
    if inner == [] {
      EliminateEdge(g, d, p, x);
      short := [];
    } else if inner[0] == d {
      short := BridgeFrom(g, d, p, inner[1..], x);
    } else {
      var rest := BridgeChain(g, d, inner[0], inner[1..], x);
      EliminateEdge(g, d, p, Group(inner[0]));
      short := [inner[0]] + rest;
      assert short[1..] == rest;
    }
  }

  /** Deleting one group neither creates nor destroys reachability between the survivors. */
  lemma DeletePreservesReachability(g: Graph, d: nat, p: nat, x: Node)
    requires g.Valid() && p != d && x != Group(d)
    ensures Eliminate(g, d).Reaches(p, x) <==> g.Reaches(p, x)
  {
    if Eliminate(g, d).Reaches(p, x) {
      var inner :| Eliminate(g, d).Chain(p, inner, x);
      var full := ExpandChain(g, d, p, inner, x);
    }
    if g.Reaches(p, x) {
      var inner :| g.Chain(p, inner, x);
      var short := BridgeChain(g, d, p, inner, x);
    }
  }

  /** The repair never closes a cycle. */
  lemma DeletePreservesAcyclicity(g: Graph, d: nat)
    requires g.Valid() && g.Acyclic()
    ensures Eliminate(g, d).Acyclic()
  {
    forall p ensures !Eliminate(g, d).Reaches(p, Group(p)) {
      if Eliminate(g, d).Reaches(p, Group(p)) {
        var inner :| Eliminate(g, d).Chain(p, inner, Group(p));
        var full := ExpandChain(g, d, p, inner, Group(p));
        assert false;
      }
    }
  }

  // ---------------------------------------------------------------- runs of deletions

  ghost predicate Within(inner: seq<nat>, ds: set<nat>) {
    forall q :: q in inner ==> q in ds
  }

  ghost predicate LinkedThrough(g: Graph, p: nat, ds: set<nat>, x: Node) {
    exists inner :: Within(inner, ds) && g.Chain(p, inner, x)
  }

  /** Closed form of a run: a survivor links directly to x exactly when the original graph had a
      chain from it to x whose inner groups have all been deleted. */
  lemma {:induction false} EdgesAfterDeletions(g: Graph, ds: seq<nat>, p: nat, x: Node)
    requires g.Valid() && p !in ds && Survives(x, Elements(ds))
    ensures DeleteAll(g, ds).Edge(p, x) <==> LinkedThrough(g, p, Elements(ds), x)
    decreases |ds|
  {
    if ds == [] {
      forall inner: seq<nat> | inner != [] ensures !Within(inner, Elements(ds)) {
        assert inner[0] in inner;
      }
      if g.Edge(p, x) {
        assert Within([], Elements(ds)) && g.Chain(p, [], x);
      }
    } else {
      var d, later := ds[0], ds[1..];
      assert Elements(ds) == {d} + Elements(later);
      EliminateValid(g, d);
      EdgesAfterDeletions(Eliminate(g, d), later, p, x);
      if LinkedThrough(Eliminate(g, d), p, Elements(later), x) {
        var inner :| Within(inner, Elements(later)) && Eliminate(g, d).Chain(p, inner, x);
        var full := ExpandChain(g, d, p, inner, x);
        assert Within(full, Elements(ds));
      }
      if LinkedThrough(g, p, Elements(ds), x) {
        var inner :| Within(inner, Elements(ds)) && g.Chain(p, inner, x);
        var short := BridgeChain(g, d, p, inner, x);
        assert Within(short, Elements(later));
      }
    }
  }

  lemma {:induction false} DeleteAllRows(g: Graph, ds: seq<nat>)
    requires g.Valid()
    ensures DeleteAll(g, ds).Valid()
    ensures DeleteAll(g, ds).groups == g.groups - Elements(ds) && DeleteAll(g, ds).hosts == g.hosts
    decreases |ds|
  {
    if ds == [] {
    } else {
      EliminateValid(g, ds[0]);
      DeleteAllRows(Eliminate(g, ds[0]), ds[1..]);
      assert Elements(ds) == {ds[0]} + Elements(ds[1..]);
    }
  }

  /** The final graph depends on which groups were deleted, never on the order. */
  lemma DeletionOrderIrrelevant(g: Graph, ds: seq<nat>, es: seq<nat>)
    requires g.Valid() && Elements(ds) == Elements(es)
    ensures DeleteAll(g, ds) == DeleteAll(g, es)
  {
    DeleteAllRows(g, ds);
    DeleteAllRows(g, es);
    var a, b := DeleteAll(g, ds), DeleteAll(g, es);
    forall p, x: Node | p in a.groups && Survives(x, Elements(ds))
      ensures a.Edge(p, x) == b.Edge(p, x)
    {
      assert p !in Elements(ds) && p !in Elements(es);
      EdgesAfterDeletions(g, ds, p, x);
      EdgesAfterDeletions(g, es, p, x);
    }
    SameEdges(a, b, Elements(ds));
  }

  lemma SameEdges(a: Graph, b: Graph, gone: set<nat>)
    requires a.Valid() && b.Valid() && a.groups == b.groups && a.hosts == b.hosts && a.groups !! gone
    requires forall p, x: Node :: p in a.groups && Survives(x, gone) ==> a.Edge(p, x) == b.Edge(p, x)
    ensures a == b
  {
    forall p, c: nat ensures (p, c) in a.children <==> (p, c) in b.children {
      if p in a.groups && c in a.groups {
        assert Survives(Group(c), gone);
        assert a.Edge(p, Group(c)) == b.Edge(p, Group(c));
      }
    }
    forall p, h: nat ensures (p, h) in a.members <==> (p, h) in b.members {
      if p in a.groups {
        assert Survives(Host(h), gone);
        assert a.Edge(p, Host(h)) == b.Edge(p, Host(h));
      }
    }
    assert a.children == b.children by {
      forall e ensures e in a.children <==> e in b.children {
        assert e == (e.0, e.1);
      }
    }
    assert a.members == b.members by {
      forall e ensures e in a.members <==> e in b.members {
        assert e == (e.0, e.1);
      }
    }
  }

  /** Reachability between survivors is unchanged by any run, and an acyclic hierarchy stays acyclic. */
  lemma {:induction false} RunPreservesReachability(g: Graph, ds: seq<nat>)
    requires g.Valid()
    ensures forall p, x: Node :: p !in ds && Survives(x, Elements(ds)) ==>
              (DeleteAll(g, ds).Reaches(p, x) <==> g.Reaches(p, x))
    ensures g.Acyclic() ==> DeleteAll(g, ds).Acyclic()
    decreases |ds|
  {
    if ds == [] {
    } else {
      var d, later := ds[0], ds[1..];
      var e := Eliminate(g, d);
      assert Elements(ds) == {d} + Elements(later);
      EliminateValid(g, d);
      RunPreservesReachability(e, later);
      if g.Acyclic() {
        DeletePreservesAcyclicity(g, d);
      }
      forall p, x: Node | p !in ds && Survives(x, Elements(ds))
        ensures DeleteAll(g, ds).Reaches(p, x) <==> g.Reaches(p, x)
      {
        assert p !in later && Survives(x, Elements(later));
        DeletePreservesReachability(g, d, p, x);
      }
    }
  }

  // ---------------------------------------------------------------- the signal handlers

  ghost function Linked(p: nat, xs: set<nat>): set<(nat, nat)> {
    set x | x in xs :: (p, x)
  }

  ghost function Product(ps: set<nat>, xs: set<nat>): set<(nat, nat)> {
    set p, x | p in ps && x in xs :: (p, x)
  }

  lemma ProductStep(all: set<nat>, pending: set<nat>, p: nat, xs: set<nat>)
    requires p in pending && pending <= all
    ensures Product(all - (pending - {p}), xs) == Product(all - pending, xs) + Linked(p, xs)
  {
    assert all - (pending - {p}) == (all - pending) + {p};
  }

  /** The inventory tables the two delete handlers work on. */
  class Inventory {
    var groups: set<nat>
    var hosts: set<nat>
    var children: set<(nat, nat)>
    var members: set<(nat, nat)>

    function View(): Graph
      reads this
    {
      Graph(groups, hosts, children, members)
    }

    constructor (g: Graph)
      ensures View() == g
    {
      groups, hosts, children, members := g.groups, g.hosts, g.children, g.members;
    }

    /** pre_delete snapshot, removal of the row with its links, then the post_delete loops. */
    method DeleteGroup(d: nat)
      requires View().Valid() && d in groups
      modifies this
      ensures View() == Eliminate(old(View()), d)
      ensures View().Valid()
    {
      var savedParents := set p | p in groups && (p, d) in children;
      var savedHosts := set h | h in hosts && (d, h) in members;
      var savedChildren := set c | c in groups && (d, c) in children;

      groups := groups - {d};
      children := set e | e in children && e.0 != d && e.1 != d;
      members := set e | e in members && e.0 != d;
      MigrateChildren(savedParents, savedHosts, savedChildren);

      assert children == Eliminate(old(View()), d).children;
      assert members == Eliminate(old(View()), d).members;
    }

    method MigrateChildren(savedParents: set<nat>, savedHosts: set<nat>, savedChildren: set<nat>)
      modifies this`children, this`members
      ensures children == old(children) +
                Product(savedParents * groups, savedChildren * groups)
      ensures members == old(members) +
                Product(savedParents * groups, savedHosts * hosts)
    {
      if savedParents == {} {
        return;
      }
      var parents := savedParents * groups;
      while parents != {}
        invariant parents <= savedParents * groups
        invariant children == old(children) +
                    Product(savedParents * groups - parents, savedChildren * groups)
        invariant members == old(members) +
                    Product(savedParents * groups - parents, savedHosts * hosts)
      {
        var parent :| parent in parents;
        ProductStep(savedParents * groups, parents, parent, savedHosts * hosts);
        ProductStep(savedParents * groups, parents, parent, savedChildren * groups);
        parents := parents - {parent};
        ghost var members0, children0 := members, children;
        var childHosts := savedHosts * hosts;
        assert Linked(parent, savedHosts * hosts - childHosts) == {};
        while childHosts != {}
          invariant children == children0
          invariant childHosts <= savedHosts * hosts
          invariant members == members0 + Linked(parent, savedHosts * hosts - childHosts)
        {
          var childHost :| childHost in childHosts;
          childHosts := childHosts - {childHost};
          members := members + {(parent, childHost)};
        }
        var childGroups := savedChildren * groups;
        assert Linked(parent, savedChildren * groups - childGroups) == {};
        while childGroups != {}
          invariant members == members0 + Linked(parent, savedHosts * hosts)
          invariant childGroups <= savedChildren * groups
          invariant children == children0 + Linked(parent, savedChildren * groups - childGroups)
        {
          var childGroup :| childGroup in childGroups;
          childGroups := childGroups - {childGroup};
          children := children + {(parent, childGroup)};
        }
      }
    }
  }
}
