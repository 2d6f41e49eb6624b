/** Capacity accounting over instance groups that share instances. */
module Capacity {
  import opened Wrappers

  type Name = string

  datatype Instance = Instance(hostname: Name, capacity: int)
  datatype Group = Group(name: Name, instances: seq<Instance>)

  datatype Status = Waiting | Running | OtherStatus

  datatype Task = Task(impact: int, status: Status, executionNode: Option<Name>, instanceGroup: Option<Name>)

  /** Group names are unique in the database. */
  ghost predicate DistinctNames(gs: seq<Group>) {
    forall i, j :: 0 <= i < j < |gs| ==> gs[i].name != gs[j].name
  }

  predicate ActiveAmong(instances: seq<Instance>, host: Name) {
    exists i :: 0 <= i < |instances| && instances[i].hostname == host && instances[i].capacity != 0
  }

  predicate HasActive(g: Group, host: Name) {
    ActiveAmong(g.instances, host)
  }

  /** Group `name` has `host` as an instance with nonzero capacity. */
  predicate Member(gs: seq<Group>, name: Name, host: Name) {
    exists i :: 0 <= i < |gs| && gs[i].name == name && HasActive(gs[i], host)
  }

  predicate IsGroup(gs: seq<Group>, name: Name) {
    exists i :: 0 <= i < |gs| && gs[i].name == name
  }

  /** Two groups affect each other: they are the same or have an active instance in common. */
  ghost predicate Shares(gs: seq<Group>, a: Name, b: Name) {
    IsGroup(gs, a) && IsGroup(gs, b) && (a == b || exists host :: Member(gs, a, host) && Member(gs, b, host))
  }

  lemma SharesSymmetric(gs: seq<Group>, a: Name, b: Name)
    ensures Shares(gs, a, b) <==> Shares(gs, b, a)
  {
  }

  /** Which groups a task weighs on. */
  ghost predicate Hits(gs: seq<Group>, t: Task, name: Name) {
    if t.status == Waiting || t.executionNode.None? then
      t.instanceGroup.Some? &&
      if IsGroup(gs, t.instanceGroup.value) then Shares(gs, t.instanceGroup.value, name)
      else name == t.instanceGroup.value
    else if t.status == Running then
      if exists g :: Member(gs, g, t.executionNode.value) then Member(gs, name, t.executionNode.value)
      else t.instanceGroup == Some(name)
    else false
  }

  predicate Active(g: Group, host: Name) {
    exists i :: 0 <= i < |g.instances| && g.instances[i].hostname == host && g.instances[i].capacity != 0
  }

  /** A task that waits or has no node weighs on its own group and, if that is one of those given, on every group with
      an active instance in common; a running one on the groups where its node is active, or on its own if there is
      none; any other on no group. */
  lemma HitsExactly(gs: seq<Group>, t: Task, name: Name)
    ensures t.status == Waiting || t.executionNode == None ==>
              (Hits(gs, t, name) <==>
               t.instanceGroup == Some(name) ||
               exists g, h, host :: g in gs && h in gs && t.instanceGroup == Some(g.name) && name == h.name &&
                                    Active(g, host) && Active(h, host))
    ensures t.status == Running && t.executionNode != None ==>
              (Hits(gs, t, name) <==>
               if exists g :: g in gs && Active(g, t.executionNode.value) then
                 exists g :: g in gs && g.name == name && Active(g, t.executionNode.value)
               else t.instanceGroup == Some(name))
    ensures t.status == OtherStatus && t.executionNode != None ==> !Hits(gs, t, name)
  {
    if t.instanceGroup.Some? {
      SharesExactly(gs, t.instanceGroup.value, name);
    }
    if t.executionNode.Some? {
      var host := t.executionNode.value;
      forall n ensures Member(gs, n, host) <==> exists g :: g in gs && g.name == n && Active(g, host) {
        MemberExactly(gs, n, host);
      }
      if g :| g in gs && Active(g, host) {
        assert Member(gs, g.name, host);
      }
    }
  }

  lemma SharesExactly(gs: seq<Group>, a: Name, b: Name)
    ensures (if IsGroup(gs, a) then Shares(gs, a, b) else b == a) <==>
            a == b || exists g, h, host ::
                        g in gs && h in gs && a == g.name && b == h.name && Active(g, host) && Active(h, host)
  {
    forall n, host ensures Member(gs, n, host) <==> exists g :: g in gs && g.name == n && Active(g, host) {
      MemberExactly(gs, n, host);
    }
    if g, h, host :| g in gs && h in gs && a == g.name && b == h.name && Active(g, host) && Active(h, host) {
      assert Member(gs, a, host) && Member(gs, b, host);
      MemberIsGroup(gs, a, host);
      MemberIsGroup(gs, b, host);
    }
    if IsGroup(gs, a) && a != b && Shares(gs, a, b) {
      var host :| Member(gs, a, host) && Member(gs, b, host);
      var g :| g in gs && g.name == a && Active(g, host);
      var h :| h in gs && h.name == b && Active(h, host);
    }
  }

  lemma MemberExactly(gs: seq<Group>, n: Name, host: Name)
    ensures Member(gs, n, host) <==> exists g :: g in gs && g.name == n && Active(g, host)
  {
    if Member(gs, n, host) {
      var i :| 0 <= i < |gs| && gs[i].name == n && HasActive(gs[i], host);
      assert gs[i] in gs && Active(gs[i], host);
    }
    if g :| g in gs && g.name == n && Active(g, host) {
      var i :| 0 <= i < |gs| && gs[i] == g;
      assert HasActive(gs[i], host);
    }
  }

  predicate CountsAsCommitted(t: Task) { t.status == Waiting || t.executionNode.None? }

  datatype Kind = Consumed | Committed | RunningNow

  ghost function Weight(gs: seq<Group>, t: Task, name: Name, kind: Kind): int {
    if Hits(gs, t, name) &&
       (kind == Consumed || (kind == Committed && CountsAsCommitted(t)) ||
        (kind == RunningNow && !CountsAsCommitted(t)))
    then t.impact else 0
  }

  /** The total weight of the tasks that hit a group. */
  ghost function Load(gs: seq<Group>, tasks: seq<Task>, name: Name, kind: Kind): int
    decreases |tasks|
  {
    if tasks == [] then 0
    else Load(gs, tasks[..|tasks| - 1], name, kind) + Weight(gs, tasks[|tasks| - 1], name, kind)
  }

  lemma {:induction false} LoadAppend(gs: seq<Group>, a: seq<Task>, b: seq<Task>, name: Name, kind: Kind)
    ensures Load(gs, a + b, name, kind) == Load(gs, a, name, kind) + Load(gs, b, name, kind)
    decreases |b|
  {
    if b == [] {
      assert a + b == a;
    } else {
      var b0 := b[..|b| - 1];
      LoadAppend(gs, a, b0, name, kind);
      assert (a + b)[..|a + b| - 1] == a + b0;
    }
  }

  lemma LoadWithout(gs: seq<Group>, b: seq<Task>, i: nat, name: Name, kind: Kind)
    requires i < |b|
    ensures Load(gs, b, name, kind) == Load(gs, b[..i] + b[i + 1..], name, kind) + Weight(gs, b[i], name, kind)
  {
    var front, back := b[..i], b[i + 1..];
    assert b == (front + [b[i]]) + back;
    LoadAppend(gs, front + [b[i]], back, name, kind);
    LoadAppend(gs, front, back, name, kind);
    assert (front + [b[i]])[..|front|] == front;
  }

  lemma MultisetWithout<T>(b: seq<T>, i: nat)
    requires i < |b|
    ensures multiset(b[..i] + b[i + 1..]) == multiset(b) - multiset{b[i]}
  {
    assert b == b[..i] + [b[i]] + b[i + 1..];
  }

  /** The order of the tasks does not matter. */
  lemma {:induction false} LoadOrderIrrelevant(gs: seq<Group>, a: seq<Task>, b: seq<Task>, name: Name, kind: Kind)
    requires multiset(a) == multiset(b)
    ensures Load(gs, a, name, kind) == Load(gs, b, name, kind)
    decreases |a|
  {
    if a == [] {
      assert |b| == |multiset(b)| == |multiset(a)| == 0;
    } else {
      var last := |a| - 1;
      assert a[last] in multiset(b);
      var i :| 0 <= i < |b| && b[i] == a[last];
      MultisetWithout(a, last);
      MultisetWithout(b, i);
      assert a[..last] + a[last + 1..] == a[..last];
      LoadOrderIrrelevant(gs, a[..last], b[..i] + b[i + 1..], name, kind);
      LoadWithout(gs, b, i, name, kind);
    }
  }

  /** What is consumed is what is committed plus what is running. */
  lemma {:induction false} ConsumedSplits(gs: seq<Group>, tasks: seq<Task>, name: Name)
    ensures Load(gs, tasks, name, Consumed) == Load(gs, tasks, name, Committed) + Load(gs, tasks, name, RunningNow)
    decreases |tasks|
  {
    if tasks == [] {
    } else {
      ConsumedSplits(gs, tasks[..|tasks| - 1], name);
    }
  }

  /** The impact of all the tasks of one kind. */
  ghost function Total(tasks: seq<Task>, counts: Task -> bool): int
    decreases |tasks|
  {
    if tasks == [] then 0
    else
      var last := tasks[|tasks| - 1];
      Total(tasks[..|tasks| - 1], counts) + if counts(last) then last.impact else 0
  }

  lemma {:induction false} LoadIsTotal(gs: seq<Group>, tasks: seq<Task>, name: Name, kind: Kind, counts: Task -> bool)
    requires forall t :: Weight(gs, t, name, kind) == if counts(t) then t.impact else 0
    ensures Load(gs, tasks, name, kind) == Total(tasks, counts)
    decreases |tasks|
  {
    if tasks != [] {
      LoadIsTotal(gs, tasks[..|tasks| - 1], name, kind, counts);
    }
  }

  /** A task that waits, or has no node, is committed; a running one on a node is running; any other weighs nothing. */
  lemma WeightByStatus(gs: seq<Group>, t: Task, name: Name)
    ensures t.status == Waiting || t.executionNode == None ==>
              Weight(gs, t, name, RunningNow) == 0 &&
              Weight(gs, t, name, Committed) == Weight(gs, t, name, Consumed) == if Hits(gs, t,
                  name) then t.impact else 0
    ensures t.status == Running && t.executionNode != None ==>
              Weight(gs, t, name, Committed) == 0 &&
              Weight(gs, t, name, RunningNow) == Weight(gs, t, name, Consumed) == if Hits(gs, t,
                  name) then t.impact else 0
    ensures t.status == OtherStatus && t.executionNode != None ==> forall kind :: Weight(gs, t, name, kind) == 0
  {
  }

  // ---------------------------------------------------------------- membership maps

  /** The map from instances to their groups, and from groups to their active instances. */
  ghost predicate MapsMembers(gs: seq<Group>, instanceGroups: map<Name, set<Name>>,
                              groupInstances: map<Name, set<Name>>) {
    && (forall h, g :: Listed(instanceGroups, h, g) <==> Member(gs, g, h))
    && (forall h :: h in instanceGroups ==> instanceGroups[h] != {})
    && (forall g :: g in groupInstances <==> IsGroup(gs, g))
    && (forall g, h :: Listed(groupInstances, g, h) <==> Member(gs, g, h))
  }

  ghost predicate MapsShares(gs: seq<Group>, groupGroups: map<Name, set<Name>>) {
    && (forall g :: g in groupGroups <==> IsGroup(gs, g))
    && (forall a, b :: Listed(groupGroups, a, b) <==> Shares(gs, a, b))
  }

  lemma ActiveSnoc(instances: seq<Instance>, i: nat, host: Name)
    requires i < |instances|
    ensures ActiveAmong(instances[..i + 1], host) <==>
            ActiveAmong(instances[..i], host) || (instances[i].hostname == host && instances[i].capacity != 0)
  {
    var now, before := instances[..i + 1], instances[..i];
    if ActiveAmong(before, host) {
      var j :| 0 <= j < |before| && before[j].hostname == host && before[j].capacity != 0;
      assert now[j] == before[j];
    }
    assert now[i] == instances[i];
  }

  predicate Listed(m: map<Name, set<Name>>, key: Name, name: Name) {
    key in m && name in m[key]
  }

  /** Record that `name` is among the groups of `host`. */
  function AddTo(m: map<Name, set<Name>>, host: Name, name: Name): (r: map<Name, set<Name>>)
    ensures forall h, n :: Listed(r, h, n) <==> Listed(m, h, n) || (h == host && n == name)
    ensures (forall h :: h in m ==> m[h] != {}) ==> forall h :: h in r ==> r[h] != {}
  {
    var old' := if host in m then m[host] else {};
    m[host := old' + {name}]
  }

  method AddInstances(g: Group, instanceGroups: map<Name, set<Name>>)
    returns (r: map<Name, set<Name>>, hosts: set<Name>)
    requires forall h :: h in instanceGroups ==> instanceGroups[h] != {}
    ensures forall h :: h in hosts <==> HasActive(g, h)
    ensures forall h, n :: Listed(r, h, n) <==>
              Listed(instanceGroups, h, n) || (n == g.name && h in hosts)
    ensures forall h :: h in r ==> r[h] != {}
  {
    r, hosts := instanceGroups, {};
    var i := 0;
    while i < |g.instances|
      invariant 0 <= i <= |g.instances|
      invariant forall h :: h in hosts <==> ActiveAmong(g.instances[..i], h)
      invariant forall h, n :: Listed(r, h, n) <==>
                  Listed(instanceGroups, h, n) || (n == g.name && h in hosts)
      invariant forall h :: h in r ==> r[h] != {}
    {
      var inst := g.instances[i];
      forall h ensures ActiveAmong(g.instances[..i + 1], h) <==>
                       ActiveAmong(g.instances[..i], h) || (inst.hostname == h && inst.capacity != 0)
      {
        ActiveSnoc(g.instances, i, h);
      }
      if inst.capacity != 0 {
        hosts := hosts + {inst.hostname};
        r := AddTo(r, inst.hostname, g.name);
      }
      i := i + 1;
    }
    assert g.instances[..i] == g.instances;
  }

  lemma MemberSnoc(gs: seq<Group>, i: nat, name: Name, host: Name)
    requires i < |gs|
    ensures Member(gs[..i + 1], name, host) <==>
            Member(gs[..i], name, host) || (gs[i].name == name && HasActive(gs[i], host))
    ensures IsGroup(gs[..i + 1], name) <==> IsGroup(gs[..i], name) || gs[i].name == name
  {
    assert gs[..i + 1] == gs[..i] + [gs[i]];
    var now, before := gs[..i + 1], gs[..i];
    if Member(before, name, host) {
      var j :| 0 <= j < |before| && before[j].name == name && HasActive(before[j], host);
      assert now[j] == before[j];
    }
    if gs[i].name == name {
      assert now[i] == gs[i];
    }
    if IsGroup(before, name) {
      var j :| 0 <= j < |before| && before[j].name == name;
      assert now[j] == before[j];
    }
  }

  lemma MemberIsGroup(gs: seq<Group>, name: Name, host: Name)
    requires Member(gs, name, host)
    ensures IsGroup(gs, name)
  {
  }

  method MembershipMaps(gs: seq<Group>)
    returns (instanceGroups: map<Name, set<Name>>, groupInstances: map<Name, set<Name>>)
    requires DistinctNames(gs)
    ensures MapsMembers(gs, instanceGroups, groupInstances)
  {
    instanceGroups, groupInstances := map[], map[];
    var i := 0;
    while i < |gs|
      invariant 0 <= i <= |gs|
      invariant MapsMembers(gs[..i], instanceGroups, groupInstances)
    {
      ghost var ig0, gi0 := instanceGroups, groupInstances;
      assert !IsGroup(gs[..i], gs[i].name);
      var hosts;
      instanceGroups, hosts := AddInstances(gs[i], instanceGroups);
      groupInstances := groupInstances[gs[i].name := hosts];
      GroupAdded(gs, i, ig0, gi0, instanceGroups, groupInstances, hosts);
      i := i + 1;
    }
    assert gs[..i] == gs;
  }

  lemma GroupAdded(gs: seq<Group>, i: nat, ig0: map<Name, set<Name>>, gi0: map<Name, set<Name>>,
                   ig: map<Name, set<Name>>, gi: map<Name, set<Name>>, hosts: set<Name>)
    requires i < |gs| && !IsGroup(gs[..i], gs[i].name)
    requires MapsMembers(gs[..i], ig0, gi0)
    requires forall h :: h in hosts <==> HasActive(gs[i], h)
    requires forall h, n :: Listed(ig, h, n) <==>
               Listed(ig0, h, n) || (n == gs[i].name && h in hosts)
    requires forall h :: h in ig ==> ig[h] != {}
    requires gi == gi0[gs[i].name := hosts]
    ensures MapsMembers(gs[..i + 1], ig, gi)
  {
    forall h, g ensures Listed(ig, h, g) <==> Member(gs[..i + 1], g, h) {
      MemberSnoc(gs, i, g, h);
      assert Listed(ig0, h, g) <==> Member(gs[..i], g, h);
    }
    forall g ensures g in gi <==> IsGroup(gs[..i + 1], g) {
      MemberSnoc(gs, i, g, "");
    }
    forall g, h ensures Listed(gi, g, h) <==> Member(gs[..i + 1], g, h) {
      MemberSnoc(gs, i, g, h);
      if Member(gs[..i], g, h) {
        MemberIsGroup(gs[..i], g, h);
      }
    }
  }

  /** For each group, the union of the groups of its active instances, and itself.  No lookup fails. */
  method GroupOverlaps(ghost gs: seq<Group>, instanceGroups: map<Name, set<Name>>, groupInstances: map<Name, set<Name>>)
    returns (overlaps: map<Name, set<Name>>)
    requires MapsMembers(gs, instanceGroups, groupInstances)
    ensures MapsShares(gs, overlaps)
  {
    overlaps := map[];
    var names := groupInstances.Keys;
    while names != {}
      invariant names <= groupInstances.Keys
      invariant overlaps.Keys == groupInstances.Keys - names
      invariant forall a, b :: a in overlaps ==> (b in overlaps[a] <==> Shares(gs, a, b))
    {
      var name :| name in names;
      var union := {};
      var hosts := groupInstances[name];
      while hosts != {}
        invariant hosts <= groupInstances[name]
        invariant forall b :: b in union <==>
                    exists h :: h in groupInstances[name] && h !in hosts && Member(gs, b, h)
      {
        var host :| host in hosts;
        assert Member(gs, name, host);
        hosts := hosts - {host};
        union := union + instanceGroups[host];
      }
      union := union + {name};
      forall b ensures b in union <==> Shares(gs, name, b) {
        if exists h :: Member(gs, name, h) && Member(gs, b, h) {
          var h :| Member(gs, name, h) && Member(gs, b, h);
          MemberIsGroup(gs, b, h);
          assert h in groupInstances[name];
        }
      }
      overlaps := overlaps[name := union];
      names := names - {name};
    }
  }

  // ---------------------------------------------------------------- the accounting loop

  datatype Counters = Counters(consumed: int, committed: Option<int>, running: Option<int>)

  type Graph = map<Name, Counters>

  function ZeroOut(graph: Graph, name: Name, breakdown: bool): Graph {
    var c := if name in graph then graph[name] else Counters(0, None, None);
    graph[name := if breakdown then Counters(0, Some(0), Some(0)) else c.(consumed := 0)]
  }

  /** Every group's counters are its loads; without a breakdown the other two counters are left alone. */
  ghost predicate Accounts(gs: seq<Group>, tasks: seq<Task>, initial: Graph, graph: Graph, breakdown: bool) {
    && (forall n :: n in graph <==> n in initial || HitByAny(gs, tasks, n))
    && (forall n :: n in graph ==> CountersAgree(gs, tasks, initial, n, graph[n], breakdown))
  }

  ghost predicate HitByAny(gs: seq<Group>, tasks: seq<Task>, n: Name) {
    exists i :: 0 <= i < |tasks| && Hits(gs, tasks[i], n)
  }

  ghost predicate CountersAgree(gs: seq<Group>, tasks: seq<Task>, initial: Graph, n: Name, c: Counters,
                                breakdown: bool) {
    && c.consumed == Load(gs, tasks, n, Consumed)
    && (breakdown ==> c.committed == Some(Load(gs, tasks, n, Committed)) &&
                      c.running == Some(Load(gs, tasks, n, RunningNow)))
    && (!breakdown ==> c.committed == (if n in initial then initial[n].committed else None) &&
                       c.running == (if n in initial then initial[n].running else None))
  }

  method ZeroAll(initial: Graph, breakdown: bool) returns (graph: Graph)
    ensures graph.Keys == initial.Keys
    ensures forall n :: n in graph ==> graph[n] == ZeroOut(initial, n, breakdown)[n]
  {
    graph := initial;
    var names := initial.Keys;
    while names != {}
      invariant names <= initial.Keys == graph.Keys
      invariant forall n :: n in graph ==> graph[n] == if n in names then initial[n] else ZeroOut(initial, n,
                breakdown)[n]
    {
      var n :| n in names;
      names := names - {n};
      graph := ZeroOut(graph, n, breakdown);
    }
  }

  function Charge(c: Counters, t: Task, breakdown: bool): Counters
    requires breakdown ==> c.committed.Some? && c.running.Some?
  {
    var c' := c.(consumed := c.consumed + t.impact);
    if !breakdown then c'
    else if CountsAsCommitted(t) then c'.(committed := Some(c.committed.value + t.impact))
    else c'.(running := Some(c.running.value + t.impact))
  }

  /** One task's impact on each of its groups; a group not seen before starts from zero. */
  method ChargeGroups(graph0: Graph, t: Task, impacted: set<Name>, breakdown: bool) returns (graph: Graph)
    requires breakdown ==> forall n :: n in graph0 ==> graph0[n].committed.Some? && graph0[n].running.Some?
    ensures graph.Keys == graph0.Keys + impacted
    ensures forall n :: n in graph ==>
              var c := if n in graph0 then graph0[n] else ZeroOut(map[], n, breakdown)[n];
              graph[n] == if n in impacted then Charge(c, t, breakdown) else c
    ensures forall n :: n in impacted ==>
              var c := if n in graph0 then graph0[n] else Counters(0, Some(0), Some(0));
              && graph[n].consumed == c.consumed + t.impact
              && (breakdown && (t.status == Waiting || t.executionNode == None) ==>
                    graph[n].committed == Some(c.committed.value + t.impact) && graph[n].running == c.running)
              && (breakdown && t.status != Waiting && t.executionNode != None ==>
                    graph[n].running == Some(c.running.value + t.impact) && graph[n].committed == c.committed)
              && (!breakdown && n in graph0 ==> graph[n] == c.(consumed := c.consumed + t.impact))
  {
    graph := graph0;
    var todo := impacted;
    while todo != {}
      invariant todo <= impacted && graph.Keys == graph0.Keys + (impacted - todo)
      invariant forall n :: n in graph ==>
                  var c := if n in graph0 then graph0[n] else ZeroOut(map[], n, breakdown)[n];
                  graph[n] == if n in impacted && n !in todo then Charge(c, t, breakdown) else c
    {
      var n :| n in todo;
      todo := todo - {n};
      if n !in graph {
        graph := ZeroOut(graph, n, breakdown);
      }
      graph := graph[n := Charge(graph[n], t, breakdown)];
    }
  }

  method ImpactedGroups(ghost gs: seq<Group>, t: Task, instanceGroups: map<Name, set<Name>>,
                        overlaps: map<Name, set<Name>>, ghost groupInstances: map<Name, set<Name>>)
    returns (impacted: set<Name>)
    requires MapsMembers(gs, instanceGroups, groupInstances) && MapsShares(gs, overlaps)
    ensures forall n :: n in impacted <==> Hits(gs, t, n)
  {
    if t.status == Waiting || t.executionNode.None? {
      if t.instanceGroup.None? {
        impacted := {};
      } else if t.instanceGroup.value !in overlaps {
        impacted := {t.instanceGroup.value};
      } else {
        impacted := overlaps[t.instanceGroup.value];
      }
    } else if t.status == Running {
      if t.executionNode.value !in instanceGroups {
        impacted := if t.instanceGroup.Some? then {t.instanceGroup.value} else {};
        assert forall g :: !Member(gs, g, t.executionNode.value);
      } else {
        impacted := instanceGroups[t.executionNode.value];
        var g :| g in impacted;
        assert Member(gs, g, t.executionNode.value);
      }
    } else {
      impacted := {};
    }
  }

  ghost predicate Charging(gs: seq<Group>, t: Task, before: Graph, after: Graph, breakdown: bool) {
    && (forall n :: n in after <==> n in before || Hits(gs, t, n))
    && (forall n :: n in after ==>
          var c := if n in before then before[n] else ZeroOut(map[], n, breakdown)[n];
          (breakdown ==> c.committed.Some? && c.running.Some?) &&
          after[n] == if Hits(gs, t, n) then Charge(c, t, breakdown) else c)
  }

  lemma Charged(gs: seq<Group>, tasks: seq<Task>, i: nat, initial: Graph, before: Graph, after: Graph, breakdown: bool)
    requires i < |tasks| && Accounts(gs, tasks[..i], initial, before, breakdown)
    requires Charging(gs, tasks[i], before, after, breakdown)
    ensures Accounts(gs, tasks[..i + 1], initial, after, breakdown)
  {
    forall n ensures n in after <==> n in initial || HitByAny(gs, tasks[..i + 1], n) {
      HitSnoc(gs, tasks, i, n);
    }
    forall n | n in after ensures CountersAgree(gs, tasks[..i + 1], initial, n, after[n], breakdown) {
      ChargedOne(gs, tasks, i, initial, before, after, breakdown, n);
    }
  }

  lemma HitSnoc(gs: seq<Group>, tasks: seq<Task>, i: nat, n: Name)
    requires i < |tasks|
    ensures HitByAny(gs, tasks[..i + 1], n) <==> HitByAny(gs, tasks[..i], n) || Hits(gs, tasks[i], n)
  {
    var now, before := tasks[..i + 1], tasks[..i];
    if HitByAny(gs, before, n) {
      var j :| 0 <= j < |before| && Hits(gs, before[j], n);
      assert now[j] == before[j];
    }
    assert now[i] == tasks[i];
    if HitByAny(gs, now, n) {
      var j :| 0 <= j < |now| && Hits(gs, now[j], n);
      assert j == i || before[j] == now[j];
    }
  }

  lemma ChargedOne(gs: seq<Group>, tasks: seq<Task>, i: nat, initial: Graph, before: Graph, after: Graph,
                   breakdown: bool, n: Name)
    requires i < |tasks| && Accounts(gs, tasks[..i], initial, before, breakdown) && n in after
    requires Charging(gs, tasks[i], before, after, breakdown)
    ensures CountersAgree(gs, tasks[..i + 1], initial, n, after[n], breakdown)
  {
    var c := if n in before then before[n] else ZeroOut(map[], n, breakdown)[n];
    if n !in before {
      NoHitsNoLoad(gs, tasks[..i], n, Consumed);
      NoHitsNoLoad(gs, tasks[..i], n, Committed);
      NoHitsNoLoad(gs, tasks[..i], n, RunningNow);
    }
    assert CountersAgree(gs, tasks[..i], initial, n, c, breakdown);
    ChargeAgrees(gs, tasks, i, initial, n, c, after[n], breakdown);
  }

  lemma LoadSnoc(gs: seq<Group>, tasks: seq<Task>, i: nat, n: Name, kind: Kind)
    requires i < |tasks|
    ensures Load(gs, tasks[..i + 1], n, kind) == Load(gs, tasks[..i], n, kind) + Weight(gs, tasks[i], n, kind)
  {
    assert tasks[..i + 1][..i] == tasks[..i];
  }

  lemma ChargeAgrees(gs: seq<Group>, tasks: seq<Task>, i: nat, initial: Graph, n: Name, c: Counters, c': Counters,
                     breakdown: bool)
    requires i < |tasks| && CountersAgree(gs, tasks[..i], initial, n, c, breakdown)
    requires breakdown ==> c.committed.Some? && c.running.Some?
    requires c' == if Hits(gs, tasks[i], n) then Charge(c, tasks[i], breakdown) else c
    ensures CountersAgree(gs, tasks[..i + 1], initial, n, c', breakdown)
  {
    LoadSnoc(gs, tasks, i, n, Consumed);
    LoadSnoc(gs, tasks, i, n, Committed);
    LoadSnoc(gs, tasks, i, n, RunningNow);
  }

  lemma {:induction false} NoHitsNoLoad(gs: seq<Group>, tasks: seq<Task>, name: Name, kind: Kind)
    requires !HitByAny(gs, tasks, name)
    ensures Load(gs, tasks, name, kind) == 0
    decreases |tasks|
  {
    if tasks == [] {
    } else {
      HitSnoc(gs, tasks, |tasks| - 1, name);
      assert tasks[..|tasks|] == tasks;
      NoHitsNoLoad(gs, tasks[..|tasks| - 1], name, kind);
    }
  }

  /** Every group of the graph handed in, or of the database, and every other that a task hits, has as its counters the
      impacts of the tasks that hit it: all of them; those that wait or have no node; those that run on one. */
  ghost predicate Tallied(gs: seq<Group>, tasks: seq<Task>, breakdown: bool, given: Option<Graph>, graph: Graph) {
    forall n ::
      && (n in graph <==> (if given.Some? then n in given.value else IsGroup(gs, n)) ||
                          exists i :: 0 <= i < |tasks| && Hits(gs, tasks[i], n))
      && (n in graph ==> TalliedOne(gs, tasks, breakdown, n, graph[n]))
  }

  ghost predicate TalliedOne(gs: seq<Group>, tasks: seq<Task>, breakdown: bool, n: Name, c: Counters) {
    && c.consumed == Total(tasks, t => Hits(gs, t, n))
    && (breakdown ==>
          && c.committed == Some(Total(tasks, t => Hits(gs, t, n) && (t.status == Waiting || t.executionNode == None)))
          && c.running == Some(Total(tasks, t => Hits(gs, t, n) && t.status == Running && t.executionNode != None)))
  }

  lemma CountersTallied(gs: seq<Group>, tasks: seq<Task>, initial: Graph, n: Name, c: Counters, breakdown: bool)
    requires CountersAgree(gs, tasks, initial, n, c, breakdown)
    ensures TalliedOne(gs, tasks, breakdown, n, c)
  {
    LoadIsTotal(gs, tasks, n, Consumed, t => Hits(gs, t, n));
    LoadIsTotal(gs, tasks, n, Committed, t => Hits(gs, t, n) && (t.status == Waiting || t.executionNode == None));
    LoadIsTotal(gs, tasks, n, RunningNow, t => Hits(gs, t, n) && t.status == Running && t.executionNode != None);
  }

  lemma AccountsTallied(gs: seq<Group>, tasks: seq<Task>, breakdown: bool, given: Option<Graph>, graph: Graph)
    requires Accounts(gs, tasks, Initial(gs, given), graph, breakdown)
    ensures Tallied(gs, tasks, breakdown, given, graph)
  {
    forall n | n in graph ensures TalliedOne(gs, tasks, breakdown, n, graph[n]) {
      CountersTallied(gs, tasks, Initial(gs, given), n, graph[n], breakdown);
    }
    forall n ensures n in GroupNames(gs) <==> IsGroup(gs, n) {
    }
  }

  /** Every group ends with exactly the total impact of the tasks that hit it. */
  method CapacityValues(gs: seq<Group>, tasks: seq<Task>, breakdown: bool, given: Option<Graph>) returns (graph: Graph)
    requires DistinctNames(gs)
    ensures Accounts(gs, tasks, Initial(gs, given), graph, breakdown)
    ensures Tallied(gs, tasks, breakdown, given, graph)
  {
    var instanceGroups, groupInstances := MembershipMaps(gs);
    var overlaps := GroupOverlaps(gs, instanceGroups, groupInstances);
    var initial := Initial(gs, given);
    graph := ZeroAll(initial, breakdown);
    var i := 0;
    assert tasks[..0] == [];
    while i < |tasks|
      invariant 0 <= i <= |tasks|
      invariant Accounts(gs, tasks[..i], initial, graph, breakdown)
    {
      var impacted := ImpactedGroups(gs, tasks[i], instanceGroups, overlaps, groupInstances);
      ghost var before := graph;
      graph := ChargeGroups(graph, tasks[i], impacted, breakdown);
      Charged(gs, tasks, i, initial, before, graph, breakdown);
      i := i + 1;
    }
    assert tasks[..i] == tasks;
    AccountsTallied(gs, tasks, breakdown, given, graph);
  }

  /** The graph handed in, or one with every group. */
  function Initial(gs: seq<Group>, given: Option<Graph>): Graph {
    if given.Some? then given.value else map n | n in GroupNames(gs) :: Counters(0, None, None)
  }

  function GroupNames(gs: seq<Group>): set<Name> {
    set i | 0 <= i < |gs| :: gs[i].name
  }

  /** Two accounts of the same tasks, in whatever order, agree; and in each the breakdown adds up. */
  lemma AccountsUnique(gs: seq<Group>, a: seq<Task>, b: seq<Task>, initial: Graph, x: Graph, y: Graph, breakdown: bool)
    requires multiset(a) == multiset(b)
    requires Accounts(gs, a, initial, x, breakdown) && Accounts(gs, b, initial, y, breakdown)
    ensures x == y
    ensures breakdown ==> forall n :: n in x ==> x[n].consumed == x[n].committed.value + x[n].running.value
  {
    forall n ensures n in x <==> n in y {
      SameHits(gs, a, b, n);
      SameHits(gs, b, a, n);
    }
    forall n | n in x ensures x[n] == y[n] {
      LoadOrderIrrelevant(gs, a, b, n, Consumed);
      LoadOrderIrrelevant(gs, a, b, n, Committed);
      LoadOrderIrrelevant(gs, a, b, n, RunningNow);
    }
    forall n | n in x && breakdown ensures x[n].consumed == x[n].committed.value + x[n].running.value {
      ConsumedSplits(gs, a, n);
    }
  }

  lemma SameHits(gs: seq<Group>, a: seq<Task>, b: seq<Task>, n: Name)
    requires multiset(a) == multiset(b)
    ensures HitByAny(gs, a, n) ==> HitByAny(gs, b, n)
  {
    if HitByAny(gs, a, n) {
      var i :| 0 <= i < |a| && Hits(gs, a[i], n);
      assert a[i] in multiset(b);
      var j :| 0 <= j < |b| && b[j] == a[i];
    }
  }
}
