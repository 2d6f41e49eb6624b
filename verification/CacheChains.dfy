/** Runs that leave the shared cache wrong.

    Each setting of a chain is by default what the one below it is, and says so in its depends_on; only the lowest has a
    row.  One process reads that row, another writes it and invalidates, and the first stores the old value; from then
    on each setting up the chain can be computed from the entry below it just before that entry expires. */
module CacheChains {
  import opened Wrappers
  import opened SettingValues
  import opened CacheProcesses
  import opened CacheRaces

  // ---------------------------------------------------------------- the chain

  function Name(i: nat): (k: Key)
    ensures |k| == i && (i > 0 ==> k[1..] == Name(i - 1))
  {
    if i == 0 then "" else "x" + Name(i - 1)
  }

  function Below(n: nat): set<Key> {
    set i | 0 <= i < n :: Name(i)
  }

  function FirstOf(vs: seq<Option<Value>>): Option<Value> {
    if vs == [] then None else vs[0]
  }

  function Link(k: Key): Preset {
    if k == "" then Fixed(None) else Computed([k[1..]], vs => FirstOf(vs))
  }

  /** Settings 0 to r. */
  function Chain(r: nat): Schema {
    Schema(map k | k in Below(r + 1) :: Link(k), map k | k in Below(r + 1) :: |k|,
           map k | k in Below(r + 1) :: Below(|k|))
  }

  lemma LinkOf(r: nat, i: nat)
    requires i <= r
    ensures Name(i) in Chain(r).presets && Chain(r).presets[Name(i)] == Link(Name(i)) && Chain(r).rank[Name(i)] == i
    ensures Chain(r).dependsOn[Name(i)] == Below(i)
    ensures Chain(r).Needs(Name(i)) == if i == 0 then [] else [Name(i - 1)]
  {
    assert Name(i) in Below(r + 1);
  }

  lemma ChainWellFounded(r: nat)
    ensures Chain(r).WellFounded()
  {
    var s := Chain(r);
    forall k, z | k in s.presets && z in s.Needs(k) ensures z in s.presets && s.rank[z] < s.rank[k] {
      var i: nat :| i <= r && k == Name(i);
      LinkOf(r, i);
      LinkOf(r, i - 1);
    }
  }

  lemma {:induction false} InfluenceBelow(r: nat, i: nat)
    requires i <= r && Chain(r).WellFounded() && Name(i) in Chain(r).presets
    ensures Influence(Chain(r), Name(i)) <= Below(i)
    decreases i
  {
    LinkOf(r, i);
    if i > 0 {
      LinkOf(r, i - 1);
      InfluenceBelow(r, i - 1);
      assert Name(i - 1) in Below(i);
    }
  }

  lemma ChainCovered(r: nat)
    ensures Chain(r).WellFounded() && Chain(r).Covered()
  {
    ChainWellFounded(r);
    var s := Chain(r);
    forall k, z | k in s.presets && z in Influence(s, k) ensures z in s.dependsOn[k] {
      var i: nat :| i <= r && k == Name(i);
      LinkOf(r, i);
      InfluenceBelow(r, i);
    }
  }

  lemma LinkMeans(s: Schema, rows: map<Key, Value>, k: Key, v: Option<Value>)
    requires s.WellFounded() && k in s.presets && k != "" && s.presets[k] == Link(k) && k !in rows
    requires k[1..] in s.presets && Meaning(s, rows, k[1..]) == v
    ensures Meaning(s, rows, k) == v
  {
    assert s.Needs(k) == [k[1..]];
    MeaningsAre(s, rows, [k[1..]], s.rank[k], [v]);
  }

  /** Every setting of the chain means what the lowest one's row says. */
  lemma {:induction false} ChainMeans(r: nat, rows: map<Key, Value>, i: nat)
    requires i <= r && Chain(r).WellFounded() && Name(i) in Chain(r).presets && rows.Keys == {""}
    ensures Meaning(Chain(r), rows, Name(i)) == Some(rows[""])
    decreases i
  {
    LinkOf(r, i);
    if i > 0 {
      LinkOf(r, i - 1);
      ChainMeans(r, rows, i - 1);
      LinkMeans(Chain(r), rows, Name(i), Some(rows[""]));
    } else {
      assert "" in rows.Keys;
    }
  }

  // ---------------------------------------------------------------- a fill overtaken by a write

  const OLD: Sample := Sample(Some(Number(0)), 0, 0, [])

  function Start(r: nat): World {
    World(Chain(r), 0, 0, [Version(map["" := Number(0)], 0, "")], map[], map[0 := Idle, 1 := Idle], {})
  }

  lemma StartValid(r: nat)
    ensures "" in Chain(r).presets && Chain(r).Covered() && Initial(Start(r)) && Valid(Start(r)) && Coherent(Start(r))
  {
    ChainCovered(r);
    LinkOf(r, 0);
    InitialValid(Start(r));
  }

  /** The lowest setting has been written, nothing is under way, and the value setting i had before is cached. */
  ghost predicate OldCached(w: World, r: nat, i: nat) {
    && w.schema == Chain(r) && w.patience == 0 && w.now == 59 * i && |w.versions| == 2 && w.versions[1].since == 0
    && w.Rows() == map["" := Number(1)] && w.procs == map[0 := Idle, 1 := Idle]
    && Name(i) in w.cache && w.cache[Name(i)].filledAt == 59 * i && w.cache[Name(i)].x.v == Some(Number(0))
  }

  /** Process 0 reads the setting, process 1 writes it and invalidates, process 0 stores the old value. */
  lemma Race(r: nat) returns (steps: seq<Step>)
    ensures Runs(Start(r), steps) && OldCached(After(Start(r), steps), r, 0)
  {
    var start := Start(r);
    var read := [Begin(0)] + ([ReadRow(0, "")] + []);
    var write := [Write(1, "", Some(Number(1)))] + ([Invalidate(1)] + []);
    var fill := [Fill(0, Held("", OLD))] + ([Finish(0)] + []);
    steps := read + (write + fill);
    LinkOf(r, 0);
    RaceReads(start, Chain(r));
    var w1 := After(start, read);
    RaceWrites(w1);
    var w2 := After(w1, write);
    RaceFills(w2);
    assert Name(0) == "";
    RunsAppend(w1, write, fill);
    RunsAppend(start, read, write + fill);
  }

  lemma RaceReads(start: World, s: Schema)
    requires start == World(s, 0, 0, [Version(map["" := Number(0)], 0, "")], map[], map[0 := Idle, 1 := Idle], {})
    requires "" in s.presets
    ensures var steps := [Begin(0)] + ([ReadRow(0, "")] + []);
            Runs(start, steps) &&
            After(start, steps) ==
            start.(procs := map[0 := Working(0, {Held("", OLD)}, {Held("", OLD)}, {}), 1 := Idle])
  {
    var w1 := Next(start, Begin(0));
    RunsCons(w1, ReadRow(0, ""), []);
    RunsCons(start, Begin(0), [ReadRow(0, "")] + []);
    var none: set<Held> := {};
    assert none + {Held("", OLD)} == {Held("", OLD)};
    assert Next(w1, ReadRow(0, "")) == Keep(w1, 0, Held("", OLD));
  }

  lemma RaceWrites(w: World)
    requires "" in w.schema.presets && |w.versions| == 1 && w.now == 0 && w.cache == map[] && w.done == {}
    requires w.Rows() == map["" := Number(0)] && w.procs.Keys == {0, 1} && w.procs[1] == Idle
    ensures var steps := [Write(1, "", Some(Number(1)))] + ([Invalidate(1)] + []);
            Runs(w, steps) &&
            After(w, steps) ==
            w.(versions := w.versions + [Version(map["" := Number(1)], 0, "")], done := {1})
  {
    var w1 := Next(w, Write(1, "", Some(Number(1))));
    assert Assigned(w.Rows(), "", Some(Number(1))) == map["" := Number(1)];
    RunsCons(w1, Invalidate(1), []);
    RunsCons(w, Write(1, "", Some(Number(1))), [Invalidate(1)] + []);
    assert w1.versions[1] == Version(map["" := Number(1)], 0, "");
    assert Next(w1, Invalidate(1)).procs == w.procs;
  }

  lemma RaceFills(w: World)
    requires w.versions != [] && w.now == 0 && w.cache == map[]
    requires w.procs == map[0 := Working(0, {Held("", OLD)}, {Held("", OLD)}, {}), 1 := Idle]
    ensures var steps := [Fill(0, Held("", OLD))] + ([Finish(0)] + []);
            Runs(w, steps) &&
            After(w, steps) == w.(cache := map["" := CacheEntry(OLD, 0)], procs := map[0 := Idle, 1 := Idle])
  {
    var w1 := Next(w, Fill(0, Held("", OLD)));
    assert w1.cache == map["" := CacheEntry(OLD, 0)];
    RunsCons(w1, Finish(0), []);
    RunsCons(w, Fill(0, Held("", OLD)), [Finish(0)] + []);
    assert Next(w1, Finish(0)).procs == map[0 := Idle, 1 := Idle];
  }

  lemma {:induction false} CoherentAfter(w: World, steps: seq<Step>)
    requires w.versions != [] && w.schema.WellFounded() && Runs(w, steps) && CoherentThroughout(w, steps)
    ensures After(w, steps).schema == w.schema && Coherent(After(w, steps))
    decreases |steps|
  {
    if steps != [] {
      CoherentAfter(Next(w, steps[0]), steps[1..]);
    }
  }

  /** Such runs exist: a value out of date is stored, afterwards the entry disagrees, and no invalidation is pending. */
  lemma OvertakenFill(r: nat) returns (steps: seq<Step>)
    ensures Initial(Start(r)) && Start(r).schema.Covered() && Coherent(Start(r)) && Runs(Start(r), steps)
    ensures After(Start(r), steps).schema == Chain(r) && !Coherent(After(Start(r), steps))
    ensures !NoOutdatedFill(Start(r), steps)
  {
    StartValid(r);
    steps := Race(r);
    var w := After(Start(r), steps);
    assert Name(0) == "" && w.Live("") && !w.Pending("");
    ChainMeans(r, w.Rows(), 0);
    assert !Agrees(w, "");
    CoherentWithoutOutdatedFills(Start(r), steps);
    if CoherentThroughout(Start(r), steps) {
      CoherentAfter(Start(r), steps);
    }
  }

  // ---------------------------------------------------------------- up the chain

  /** What the entry above is made of. */
  function Above(x: Sample, now: nat): Sample {
    Sample(FirstOf(ValuesOf([x])), 1, now, [x])
  }

  /** All that the steps at one height need to know: the entry below is about to expire. */
  ghost predicate Climbing(w: World, r: nat, i: nat, x: Sample) {
    && i < r && w.schema == Chain(r) && w.patience == 0 && w.now == 59 * (i + 1)
    && |w.versions| == 2 && w.versions[1].since == 0 && w.Rows() == map["" := Number(1)]
    && w.Live(Name(i)) && w.cache[Name(i)].x == x && x.v == Some(Number(0))
    && w.procs.Keys == {0, 1} && w.procs[1] == Idle
  }

  /** Process 0 finds no row for the next setting, takes the cached one below, computes from it and stores. */
  lemma Climb(w0: World, r: nat, i: nat) returns (steps: seq<Step>)
    requires i < r && OldCached(w0, r, i)
    ensures Runs(w0, steps) && OldCached(After(w0, steps), r, i + 1)
  {
    var w, x, k := Next(w0, Tick(59)), w0.cache[Name(i)].x, Name(i + 1);
    var gather := [Begin(0)] + ([ReadRow(0, k)] + ([Reuse(0, Name(i))] + []));
    var store := [Compute(0, k, 1, w.now, [x])] + ([Fill(0, Held(k, Above(x, w.now)))] + ([Finish(0)] + []));
    GatherBelow(w, r, i, x);
    var w1 := After(w, gather);
    Store(w1, r, i, x);
    RunsAppend(w, gather, store);
    RunsCons(w0, Tick(59), gather + store);
    steps := [Tick(59)] + (gather + store);
  }

  lemma Gather(w: World, k: Key, below: Key)
    requires |w.versions| == 2 && w.procs == map[0 := Idle, 1 := Idle]
    requires k in w.schema.presets && k !in w.Rows() && w.Usable(below)
    ensures var steps := [Begin(0)] + ([ReadRow(0, k)] + ([Reuse(0, below)] + []));
            Runs(w, steps) &&
            After(w, steps) ==
            w.(procs := map[0 := Working(w.now, {}, {Held(below, w.cache[below].x)}, {(k, 1, w.now)}), 1 := Idle])
  {
    var w1 := Next(w, Begin(0));
    GatherRead(w1, k);
    var w2 := Next(w1, ReadRow(0, k));
    GatherReuse(w2, below, {(k, 1, w.now)});
    RunsCons(w1, ReadRow(0, k), [Reuse(0, below)] + []);
    RunsCons(w, Begin(0), [ReadRow(0, k)] + ([Reuse(0, below)] + []));
  }

  lemma GatherBelow(w: World, r: nat, i: nat, x: Sample)
    requires Climbing(w, r, i, x) && w.procs == map[0 := Idle, 1 := Idle]
    ensures var steps := [Begin(0)] + ([ReadRow(0, Name(i + 1))] + ([Reuse(0, Name(i))] + []));
            Runs(w, steps) &&
            After(w, steps) ==
            w.(procs := map[0 := Working(w.now, {}, {Held(Name(i), x)}, {(Name(i + 1), 1, w.now)}), 1 := Idle])
  {
    var k := Name(i + 1);
    LinkOf(r, i + 1);
    assert k !in w.Rows();
    Gather(w, k, Name(i));
  }

  lemma GatherRead(w: World, k: Key)
    requires |w.versions| == 2 && w.procs == map[0 := Working(w.now, {}, {}, {}), 1 := Idle]
    requires k in w.schema.presets && k !in w.Rows()
    ensures Enabled(w, ReadRow(0, k))
    ensures Next(w, ReadRow(0, k)) == w.(procs := map[0 := Working(w.now, {}, {}, {(k, 1, w.now)}), 1 := Idle])
  {
    var none: set<(Key, nat, nat)> := {};
    assert none + {(k, 1, w.now)} == {(k, 1, w.now)};
    assert Next(w, ReadRow(0, k)).procs == map[0 := Working(w.now, {}, {}, {(k, 1, w.now)}), 1 := Idle];
  }

  lemma GatherReuse(w: World, k: Key, absent: set<(Key, nat, nat)>)
    requires w.versions != [] && w.procs == map[0 := Working(w.now, {}, {}, absent), 1 := Idle] && w.Usable(k)
    ensures Runs(w, [Reuse(0, k)] + [])
    ensures After(w, [Reuse(0, k)] + []) ==
            w.(procs := map[0 := Working(w.now, {}, {Held(k, w.cache[k].x)}, absent), 1 := Idle])
  {
    var none: set<Held> := {};
    assert none + {Held(k, w.cache[k].x)} == {Held(k, w.cache[k].x)};
    assert Next(w, Reuse(0, k)).procs ==
           map[0 := Working(w.now, {}, {Held(k, w.cache[k].x)}, absent), 1 := Idle];
    RunsCons(w, Reuse(0, k), []);
  }

  lemma Store(w: World, r: nat, i: nat, x: Sample)
    requires Climbing(w, r, i, x)
    requires w.procs[0] == Working(w.now, {}, {Held(Name(i), x)}, {(Name(i + 1), 1, w.now)})
    ensures var k, y := Name(i + 1), Above(x, w.now);
            var steps := [Compute(0, k, 1, w.now, [x])] + ([Fill(0, Held(k, y))] + ([Finish(0)] + []));
            Runs(w, steps) && OldCached(After(w, steps), r, i + 1)
  {
    var k, y := Name(i + 1), Above(x, w.now);
    LinkOf(r, i + 1);
    assert Link(k).f(ValuesOf([x])) == y.v == Some(Number(0));
    var w1 := Next(w, Compute(0, k, 1, w.now, [x]));
    assert w1 == Keep(w, 0, Held(k, y));
    StoreFills(w1, r, i, x, y);
    RunsCons(w, Compute(0, k, 1, w.now, [x]), [Fill(0, Held(k, y))] + ([Finish(0)] + []));
  }

  lemma StoreFills(w: World, r: nat, i: nat, x: Sample, y: Sample)
    requires Climbing(w, r, i, x) && w.procs[0].Working? && Held(Name(i + 1), y) in w.procs[0].own
    requires y.v == Some(Number(0))
    ensures var steps := [Fill(0, Held(Name(i + 1), y))] + ([Finish(0)] + []);
            Runs(w, steps) && OldCached(After(w, steps), r, i + 1)
  {
    var h := Held(Name(i + 1), y);
    var w1 := Next(w, Fill(0, h));
    RunsCons(w1, Finish(0), []);
    RunsCons(w, Fill(0, h), [Finish(0)] + []);
    assert Next(w1, Finish(0)).procs == map[0 := Idle, 1 := Idle];
  }

  lemma {:induction false} ClimbTo(r: nat, i: nat) returns (steps: seq<Step>)
    requires i <= r
    ensures Runs(Start(r), steps) && OldCached(After(Start(r), steps), r, i)
    decreases i
  {
    if i == 0 {
      steps := Race(r);
    } else {
      var before := ClimbTo(r, i - 1);
      var climb := Climb(After(Start(r), before), r, i - 1);
      RunsAppend(Start(r), before, climb);
      steps := before + climb;
    }
  }

  /** The entry is live and wrong, `quiet` seconds after the last write. */
  ghost predicate LiveWrong(w: World, k: Key, quiet: nat) {
    && w.versions != [] && w.schema.WellFounded() && k in w.schema.presets && w.Live(k)
    && w.now == w.versions[w.Last()].since + quiet
    && w.cache[k].x.v != Meaning(w.schema, w.Rows(), k)
  }

  lemma LastTick(w: World, r: nat)
    requires OldCached(w, r, r) && Chain(r).WellFounded()
    ensures Runs(w, [Tick(59)] + [])
    ensures var w' := After(w, [Tick(59)] + []);
            w'.schema == Chain(r) && w'.patience == 0 && LiveWrong(w', Name(r), 59 * (r + 1))
  {
    LinkOf(r, r);
    ChainMeans(r, w.Rows(), r);
    var w' := Next(w, Tick(59));
    assert LiveWrong(w', Name(r), 59 * (r + 1));
    RunsCons(w, Tick(59), []);
  }

  /** One time-out after the last write does not do for a setting that reads others, nor do as many as its rank: with no
      operation taking any time at all, the entry of rank r is live and wrong 59 seconds for each of the r + 1 settings
      after the last write, one second short for each of the time-outs that EventuallyCoherent asks for. */
  lemma StaleThroughInputs(r: nat) returns (steps: seq<Step>)
    ensures Initial(Start(r)) && Start(r).schema.Covered() && Runs(Start(r), steps)
    ensures var w := After(Start(r), steps);
            && w.schema == Chain(r) && Name(r) in w.schema.rank && w.schema.rank[Name(r)] == r && w.patience == 0
            && LiveWrong(w, Name(r), 59 * (r + 1))
  {
    StartValid(r);
    LinkOf(r, r);
    var climb := ClimbTo(r, r);
    LastTick(After(Start(r), climb), r);
    steps := climb + ([Tick(59)] + []);
    RunsAppend(Start(r), climb, [Tick(59)] + []);
  }
}
