/** Which roles a model's declared parent paths lead to from one object. */
module RolePaths {
  import opened Wrappers

  import opened RoleGraph
  import opened RoleStore

  type Key = nat

  datatype Error = NotARole | RebuildFailed

  /** An object, a role or not, and its attributes; an attribute may be null.  The manager of a to-many relation is
      an object without attributes. */
  datatype Obj = Obj(role: Option<RoleId>, attrs: map<string, Option<Key>>)

  type Graph = map<Key, Obj>

  datatype Path = Singleton(name: string) | Along(parts: seq<string>)

  function Follow(g: Graph, o: Key, name: string): Option<Key> {
    if o in g && name in g[o].attrs then g[o].attrs[name] else None
  }

  function RoleOf(g: Graph, o: Key): Option<RoleId> {
    if o in g then g[o].role else None
  }

  function ResolveRoleField(g: Graph, o: Key, parts: seq<string>): (r: Result<seq<RoleId>, Error>)
    requires parts != []
    ensures r.Err? ==> r.error == NotARole
    ensures r.Ok? ==> |r.value| <= 1
    decreases |parts|
  {
    var next := Follow(g, o, parts[0]);
    if next.None? then Ok([])
    else if |parts| > 1 then ResolveRoleField(g, next.value, parts[1..])
    else if RoleOf(g, next.value).None? then Err(NotARole)
    else Ok([RoleOf(g, next.value).value])
  }

  function Before(o: Key, objs: seq<Key>, i: nat): Key
    requires i <= |objs|
  {
    if i == 0 then o else objs[i - 1]
  }

  /** The objects met along the path, one for each part. */
  predicate Walk(g: Graph, o: Key, parts: seq<string>, objs: seq<Key>) {
    |objs| == |parts| &&
    forall i {:trigger objs[i]} :: 0 <= i < |parts| ==>
      StepsTo(g, if i == 0 then o else objs[i - 1], parts[i], objs[i])
  }

  /** The object has an attribute of that name, which is the other object. */
  predicate StepsTo(g: Graph, o: Key, name: string, to: Key) {
    o in g && name in g[o].attrs && g[o].attrs[name] == Some(to)
  }

  lemma WalkTail(g: Graph, o: Key, parts: seq<string>, objs: seq<Key>)
    requires parts != [] && Walk(g, o, parts, objs)
    ensures Follow(g, o, parts[0]) == Some(objs[0]) && Walk(g, objs[0], parts[1..], objs[1..])
  {
    forall i | 0 <= i < |parts| - 1
      ensures Follow(g, Before(objs[0], objs[1..], i), parts[1..][i]) == Some(objs[1..][i])
    {
      assert parts[1..][i] == parts[i + 1] && objs[1..][i] == objs[i + 1];
      assert Before(objs[0], objs[1..], i) == Before(o, objs, i + 1);
    }
    assert Before(o, objs, 0) == o;
  }

  lemma WalkCons(g: Graph, o: Key, parts: seq<string>, next: Key, rest: seq<Key>)
    requires parts != [] && Follow(g, o, parts[0]) == Some(next) && Walk(g, next, parts[1..], rest)
    ensures Walk(g, o, parts, [next] + rest)
  {
    var objs := [next] + rest;
    forall i | 0 <= i < |parts|
      ensures Follow(g, Before(o, objs, i), parts[i]) == Some(objs[i])
    {
      if i > 0 {
        assert Before(next, rest, i - 1) == Before(o, objs, i);
        assert parts[1..][i - 1] == parts[i];
      }
    }
  }

  ghost predicate LeadsTo(g: Graph, o: Key, parts: seq<string>, end: Option<RoleId>) {
    exists objs :: objs != [] && Walk(g, o, parts, objs) && IsRole(g, objs[|objs| - 1], end)
  }

  /** The object is that role, or none; an object not in the graph is none. */
  predicate IsRole(g: Graph, o: Key, end: Option<RoleId>) {
    if end == None then o in g ==> g[o].role == None else o in g && g[o].role == end
  }

  /** A path yields one role if it can be walked to a role, raises if it can be walked to anything else, and yields
      nothing if it breaks off. */
  lemma {:induction false} ResolvedExactly(g: Graph, o: Key, parts: seq<string>)
    requires parts != []
    ensures forall role: RoleId :: ResolveRoleField(g, o, parts) == Ok([role]) <==> LeadsTo(g, o, parts, Some(role))
    ensures ResolveRoleField(g, o, parts).Err? <==> LeadsTo(g, o, parts, None)
    decreases |parts|
  {
    var next := Follow(g, o, parts[0]);
    if next.Some? && |parts| > 1 {
      ResolvedExactly(g, next.value, parts[1..]);
    }
    forall end ensures Resolves(g, o, parts, end) <==> LeadsTo(g, o, parts, end) {
      if next.Some? && |parts| > 1 && end.Some? {
        assert ResolveRoleField(g, next.value, parts[1..]) == Ok([end.value]) <==>
               LeadsTo(g, next.value, parts[1..], Some(end.value));
      }
      LeadsExactly(g, o, parts, end);
    }
    assert Resolves(g, o, parts, None) <==> LeadsTo(g, o, parts, None);
    forall role: RoleId ensures ResolveRoleField(g, o, parts) == Ok([role]) <==> LeadsTo(g, o, parts, Some(role)) {
      assert Resolves(g, o, parts, Some(role)) <==> LeadsTo(g, o, parts, Some(role));
    }
  }

  predicate Resolves(g: Graph, o: Key, parts: seq<string>, end: Option<RoleId>)
    requires parts != []
  {
    ResolveRoleField(g, o, parts) == if end.Some? then Ok([end.value]) else Err(NotARole)
  }

  lemma LeadsExactly(g: Graph, o: Key, parts: seq<string>, end: Option<RoleId>)
    requires parts != []
    requires |parts| > 1 && Follow(g, o, parts[0]).Some? ==>
               (Resolves(g, Follow(g, o, parts[0]).value, parts[1..], end) <==>
                LeadsTo(g, Follow(g, o, parts[0]).value, parts[1..], end))
    ensures Resolves(g, o, parts, end) <==> LeadsTo(g, o, parts, end)
  {
    var next := Follow(g, o, parts[0]);
    if LeadsTo(g, o, parts, end) {
      LeadsOn(g, o, parts, end);
    }
    if Resolves(g, o, parts, end) && next.Some? {
      LeadsHere(g, o, parts, next.value, end);
    }
  }

  lemma LeadsOn(g: Graph, o: Key, parts: seq<string>, end: Option<RoleId>)
    requires parts != [] && LeadsTo(g, o, parts, end)
    ensures var next := Follow(g, o, parts[0]);
            next.Some? && if |parts| > 1 then LeadsTo(g, next.value, parts[1..], end) else IsRole(g, next.value, end)
  {
    var objs :| objs != [] && Walk(g, o, parts, objs) && IsRole(g, objs[|objs| - 1], end);
    WalkTail(g, o, parts, objs);
    if |parts| > 1 {
      var rest := objs[1..];
      assert rest[|rest| - 1] == objs[|objs| - 1];
      LastLeads(g, objs[0], parts[1..], rest, end);
    }
  }

  lemma LeadsHere(g: Graph, o: Key, parts: seq<string>, next: Key, end: Option<RoleId>)
    requires parts != [] && Follow(g, o, parts[0]) == Some(next)
    requires if |parts| > 1 then LeadsTo(g, next, parts[1..], end) else IsRole(g, next, end)
    ensures LeadsTo(g, o, parts, end)
  {
    if |parts| > 1 {
      var rest :| rest != [] && Walk(g, next, parts[1..], rest) && IsRole(g, rest[|rest| - 1], end);
      LeadsAlong(g, o, parts, next, rest, end);
    } else {
      LeadsAlong(g, o, parts, next, [], end);
    }
  }

  lemma LeadsAlong(g: Graph, o: Key, parts: seq<string>, next: Key, rest: seq<Key>, end: Option<RoleId>)
    requires parts != [] && Follow(g, o, parts[0]) == Some(next) && Walk(g, next, parts[1..], rest)
    requires IsRole(g, if rest == [] then next else rest[|rest| - 1], end)
    ensures LeadsTo(g, o, parts, end)
  {
    var objs := [next] + rest;
    WalkCons(g, o, parts, next, rest);
    LastOf(next, rest);
    LastLeads(g, o, parts, objs, end);
  }

  lemma LastOf(next: Key, rest: seq<Key>)
    ensures ([next] + rest)[|rest|] == if rest == [] then next else rest[|rest| - 1]
  {
  }

  lemma LastLeads(g: Graph, o: Key, parts: seq<string>, objs: seq<Key>, end: Option<RoleId>)
    requires objs != [] && Walk(g, o, parts, objs) && IsRole(g, objs[|objs| - 1], end)
    ensures LeadsTo(g, o, parts, end)
  {
  }

  /** The path names the role, given the roles of the singletons. */
  ghost predicate Names(g: Graph, o: Key, singletons: map<string, RoleId>, path: Path, role: RoleId) {
    match path
    case Singleton(name) => name in singletons && singletons[name] == role
    case Along(parts) => LeadsTo(g, o, parts, Some(role))
  }

  ghost predicate NamedBySome(g: Graph, o: Key, singletons: map<string, RoleId>, paths: seq<Path>, role: RoleId) {
    exists i :: 0 <= i < |paths| && Names(g, o, singletons, paths[i], role)
  }

  lemma NamedSnoc(g: Graph, o: Key, singletons: map<string, RoleId>, paths: seq<Path>, i: nat, role: RoleId)
    requires i < |paths|
    ensures NamedBySome(g, o, singletons, paths[..i + 1], role) <==>
            NamedBySome(g, o, singletons, paths[..i], role) || Names(g, o, singletons, paths[i], role)
  {
    assert paths[..i + 1] == paths[..i] + [paths[i]];
    if NamedBySome(g, o, singletons, paths[..i], role) {
      var j :| 0 <= j < i && Names(g, o, singletons, paths[..i][j], role);
      assert paths[..i + 1][j] == paths[..i][j];
    }
    if Names(g, o, singletons, paths[i], role) {
      assert paths[..i + 1][i] == paths[i];
    }
    if NamedBySome(g, o, singletons, paths[..i + 1], role) {
      var j :| 0 <= j < i + 1 && Names(g, o, singletons, paths[..i + 1][j], role);
      assert j < i ==> paths[..i][j] == paths[..i + 1][j];
    }
  }

  class Resolver {
    const store: RoleTable
    var singletons: map<string, RoleId>
    var nextRole: RoleId

    ghost predicate Valid()
      reads this, store, store.table
    {
      store.Valid() && (forall r :: r in store.roles ==> r < nextRole) &&
      forall name :: name in singletons ==> singletons[name] in store.roles
    }

    constructor ()
      ensures Valid() && singletons == map[] && fresh(store) && fresh(store.table)
    {
      store := new RoleTable();
      singletons, nextRole := map[], 1;
    }

    /** A singleton role is created the first time it is named. */
    method SingletonRole(name: string) returns (r: Result<RoleId, Error>)
      requires Valid()
      modifies this, store, store.table
      ensures Valid() && store.parents == old(store.parents) && store.batching == old(store.batching)
      ensures r.Ok? ==> singletons == old(singletons)[name := r.value] && store.roles == old(store.roles) + {r.value}
      ensures r.Ok? && name in old(singletons) ==> r.value == old(singletons)[name]
      ensures r.Err? ==> singletons == old(singletons) && store.roles == old(store.roles)
    {
      if name in singletons {
        assert singletons[name := singletons[name]] == singletons;
        assert store.roles + {singletons[name]} == store.roles;
        return Ok(singletons[name]);
      }
      var role := nextRole;
      var ok := store.CreateRole(role);
      if !ok {
        return Err(RebuildFailed);
      }
      nextRole := nextRole + 1;
      singletons := singletons[name := role];
      return Ok(role);
    }

    /** The roles one declared path leads to. */
    method ResolveOne(g: Graph, o: Key, path: Path) returns (r: Result<set<RoleId>, Error>)
      requires Valid() && (path.Along? ==> path.parts != [])
      modifies this, store, store.table
      ensures Valid() && store.parents == old(store.parents) && store.batching == old(store.batching)
      ensures Extends(old(singletons), singletons) && (r.Ok? && path.Singleton? ==> path.name in singletons)
      ensures r.Ok? ==> forall role :: role in r.value <==> Names(g, o, singletons, path, role)
      ensures r == Err(NotARole) ==> path.Along? && LeadsTo(g, o, path.parts, None)
    {
      match path
      case Singleton(name) =>
        var role := SingletonRole(name);
        r := if role.Ok? then Ok({role.value}) else Err(RebuildFailed);
      case Along(parts) =>
        ResolvedExactly(g, o, parts);
        var found := ResolveRoleField(g, o, parts);
        r := if found.Err? then Err(NotARole) else if found.value == [] then Ok({}) else Ok({found.value[0]});
        assert found.Ok? && found.value != [] ==> found.value == [found.value[0]];
    }

    /** The roles all the declared paths of a role field lead to. */
    method ResolveParentRoles(g: Graph, o: Key, paths: seq<Path>) returns (r: Result<set<RoleId>, Error>)
      requires Valid() && forall i :: 0 <= i < |paths| && paths[i].Along? ==> paths[i].parts != []
      modifies this, store, store.table
      ensures Valid() && store.parents == old(store.parents) && store.batching == old(store.batching)
      ensures Extends(old(singletons), singletons)
      ensures r.Ok? ==> forall role :: role in r.value <==> NamedBySome(g, o, singletons, paths, role)
      ensures r == Err(NotARole) ==> exists i ::
              0 <= i < |paths| && paths[i].Along? && LeadsTo(g, o, paths[i].parts, None)
    {
      var roles: set<RoleId> := {};
      var i := 0;
      while i < |paths|
        invariant 0 <= i <= |paths| && Valid()
        invariant store.parents == old(store.parents) && store.batching == old(store.batching)
        invariant Extends(old(singletons), singletons)
        invariant ResolvedUpTo(g, o, singletons, paths, i, roles)
      {
        var found := ResolveNext(g, o, paths, i, roles);
        if found.Err? {
          return found;
        }
        roles := found.value;
        i := i + 1;
      }
      assert paths[..i] == paths;
      r := Ok(roles);
    }

    /** The roles so far, and those of one more path. */
    method ResolveNext(g: Graph, o: Key, paths: seq<Path>, i: nat, roles: set<RoleId>)
      returns (r: Result<set<RoleId>, Error>)
      requires Valid() && i < |paths| && (paths[i].Along? ==> paths[i].parts != [])
      requires ResolvedUpTo(g, o, singletons, paths, i, roles)
      modifies this, store, store.table
      ensures Valid() && store.parents == old(store.parents) && store.batching == old(store.batching)
      ensures Extends(old(singletons), singletons)
      ensures r.Ok? ==> ResolvedUpTo(g, o, singletons, paths, i + 1, r.value)
      ensures r == Err(NotARole) ==> paths[i].Along? && LeadsTo(g, o, paths[i].parts, None)
    {
      ghost var before := singletons;
      r := ResolveOne(g, o, paths[i]);
      if r.Ok? {
        StepNames(g, o, before, singletons, paths, i, roles, roles + r.value);
        r := Ok(roles + r.value);
      }
    }
  }

  /** The first i paths have been resolved. */
  ghost predicate ResolvedUpTo(g: Graph, o: Key, singletons: map<string, RoleId>, paths: seq<Path>, i: nat,
                               roles: set<RoleId>)
    requires i <= |paths|
  {
    && (forall j :: 0 <= j < i && paths[j].Singleton? ==> paths[j].name in singletons)
    && (forall role :: role in roles <==> NamedBySome(g, o, singletons, paths[..i], role))
  }

  ghost predicate Extends(before: map<string, RoleId>, now: map<string, RoleId>) {
    before.Keys <= now.Keys && forall n :: n in before ==> now[n] == before[n]
  }

  lemma StepNames(g: Graph, o: Key, before: map<string, RoleId>, now: map<string, RoleId>, paths: seq<Path>, i: nat,
                  had: set<RoleId>, roles: set<RoleId>)
    requires i < |paths| && Extends(before, now)
    requires forall j :: 0 <= j < i && paths[j].Singleton? ==> paths[j].name in before
    requires forall role :: role in had <==> NamedBySome(g, o, before, paths[..i], role)
    requires forall role :: role in roles <==> role in had || Names(g, o, now, paths[i], role)
    ensures forall role :: role in roles <==> NamedBySome(g, o, now, paths[..i + 1], role)
  {
    forall role ensures role in roles <==> NamedBySome(g, o, now, paths[..i + 1], role) {
      NamedSnoc(g, o, now, paths, i, role);
      forall j | 0 <= j < i
        ensures Names(g, o, now, paths[..i][j], role) <==> Names(g, o, before, paths[..i][j], role)
      {
      }
      assert NamedBySome(g, o, now, paths[..i], role) <==> NamedBySome(g, o, before, paths[..i], role);
    }
  }
}
