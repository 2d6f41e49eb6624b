/** Coherence as a matter of which reads, writes and fills happen when, whatever is written.

    Two runs have the same shape if they differ only in the values written and the defaults.  A run without fills of
    values that are out of date is coherent, and so is every run of its shape; if it has one, then some run of its shape
    is not: the one in which every row holds the number of the write that made it, and every computed default holds the
    list of the values it was computed from. */
module CacheShapes {
  import opened Wrappers
  import opened SettingValues
  import opened CacheProcesses
  import opened CacheRaces

  // ---------------------------------------------------------------- the same but for the values

  function Bare(x: Sample): Sample {
    Sample(None, x.version, x.at, BareAll(x.inputs))
  }

  function BareAll(xs: seq<Sample>): (r: seq<Sample>)
    ensures |r| == |xs| && forall i :: 0 <= i < |xs| ==> r[i] == Bare(xs[i])
  {
    if xs == [] then [] else [Bare(xs[0])] + BareAll(xs[1..])
  }

  function BareHeld(h: Held): Held { Held(h.k, Bare(h.x)) }

  function BareSet(hs: set<Held>): set<Held> {
    set h | h in hs :: BareHeld(h)
  }

  /** A step without the value it writes, reads or stores; whether a write deletes is part of its shape. */
  function BareStep(s: Step): Step {
    match s
    case Compute(p, k, version, at, inputs) => Compute(p, k, version, at, BareAll(inputs))
    case Fill(p, h) => Fill(p, BareHeld(h))
    case Write(p, k, v) => Write(p, k, if v.Some? then Some(Null) else None)
    case _ => s
  }

  ghost predicate AlikeSchemas(s: Schema, s': Schema) {
    && s'.presets.Keys == s.presets.Keys && s'.rank == s.rank && s'.dependsOn == s.dependsOn
    && forall k :: k in s.presets ==> s'.Needs(k) == s.Needs(k) && s'.presets[k].Computed? == s.presets[k].Computed?
  }

  ghost predicate AlikeVersions(a: seq<Version>, b: seq<Version>) {
    && |a| == |b|
    && forall i :: 0 <= i < |a| ==> a[i].since == b[i].since && a[i].key == b[i].key && a[i].rows.Keys == b[i].rows.Keys
  }

  ghost predicate AlikeCaches(a: map<Key, CacheEntry>, b: map<Key, CacheEntry>) {
    && a.Keys == b.Keys
    && forall k :: k in a ==> a[k].filledAt == b[k].filledAt && Bare(a[k].x) == Bare(b[k].x)
  }

  ghost predicate AlikeProcess(q: Process, q': Process) {
    match q
    case Working(started, own, seen, absent) =>
      && q'.Working? && q'.started == started && q'.absent == absent
      && BareSet(q'.own) == BareSet(own) && BareSet(q'.seen) == BareSet(seen)
    case _ => q' == q
  }

  ghost predicate AlikeProcesses(a: map<Pid, Process>, b: map<Pid, Process>) {
    a.Keys == b.Keys && forall p :: p in a ==> AlikeProcess(a[p], b[p])
  }

  ghost predicate Alike(w: World, w': World) {
    && AlikeSchemas(w.schema, w'.schema) && w'.patience == w.patience && w'.now == w.now && w'.done == w.done
    && AlikeVersions(w.versions, w'.versions) && AlikeCaches(w.cache, w'.cache)
    && AlikeProcesses(w.procs, w'.procs)
  }

  ghost predicate AlikeSteps(steps: seq<Step>, steps': seq<Step>) {
    |steps| == |steps'| && forall i :: 0 <= i < |steps| ==> BareStep(steps[i]) == BareStep(steps'[i])
  }

  /** Another run of the same shape. */
  ghost predicate SameShape(w: World, steps: seq<Step>, w': World, steps': seq<Step>) {
    Initial(w') && Alike(w, w') && AlikeSteps(steps, steps') && Runs(w', steps')
  }

  // ---------------------------------------------------------------- samples

  /** A value that can be explained is given by where and when it was read. */
  lemma {:induction false} ShapeDetermines(s: Schema, versions: seq<Version>, k: Key, x: Sample, y: Sample)
    requires Explained(s, versions, k, x) && Explained(s, versions, k, y) && Bare(x) == Bare(y)
    ensures x == y
    decreases x
  {
    assert |BareAll(x.inputs)| == |x.inputs| && |BareAll(y.inputs)| == |y.inputs|;
    forall i | 0 <= i < |x.inputs| ensures x.inputs[i] == y.inputs[i] {
      assert BareAll(x.inputs)[i] == BareAll(y.inputs)[i];
      ShapeDetermines(s, versions, s.Needs(k)[i], x.inputs[i], y.inputs[i]);
    }
    assert x.inputs == y.inputs;
  }

  lemma {:induction false} OriginAlike(a: seq<Version>, b: seq<Version>, n: nat, k: Key)
    requires AlikeVersions(a, b) && n < |a|
    ensures Origin(a, n, k) == Origin(b, n, k)
  {
    assert k in a[n].rows.Keys <==> k in b[n].rows.Keys;
    if n > 0 {
      assert k in a[n - 1].rows.Keys <==> k in b[n - 1].rows.Keys;
      OriginAlike(a, b, n - 1, k);
    }
  }

  lemma {:induction false} OutdatedAlike(s: Schema, s': Schema, a: seq<Version>, b: seq<Version>, k: Key, x: Sample,
                                         y: Sample)
    requires AlikeSchemas(s, s') && AlikeVersions(a, b) && a != [] && Bare(x) == Bare(y) && k in s.presets
    requires Outdated(s, a, k, x) && forall k, r :: k in s.presets && r in s.Needs(k) ==> r in s.presets
    ensures Outdated(s', b, k, y)
    decreases x
  {
    if x.version < |a| {
      OriginAlike(a, b, x.version, k);
      OriginAlike(a, b, |a| - 1, k);
      if Origin(a, x.version, k) == Origin(a, |a| - 1, k) {
        var i :| 0 <= i < |x.inputs| && i < |s.Needs(k)| && Outdated(s, a, s.Needs(k)[i], x.inputs[i]);
        assert BareAll(x.inputs)[i] == BareAll(y.inputs)[i] && |BareAll(x.inputs)| == |BareAll(y.inputs)|;
        OutdatedAlike(s, s', a, b, s.Needs(k)[i], x.inputs[i], y.inputs[i]);
        assert Outdated(s', b, s'.Needs(k)[i], y.inputs[i]);
      }
    }
  }

  // ---------------------------------------------------------------- steps

  lemma BareSetAdd(hs: set<Held>, h: Held)
    ensures BareSet(hs + {h}) == BareSet(hs) + {BareHeld(h)}
  {
  }

  lemma BareSetDrop(s: Schema, versions: seq<Version>, hs: set<Held>, h: Held)
    requires h in hs && forall g :: g in hs ==> Explained(s, versions, g.k, g.x)
    ensures BareSet(hs - {h}) == BareSet(hs) - {BareHeld(h)}
  {
    forall g | g in hs && BareHeld(g) == BareHeld(h) ensures g == h {
      ShapeDetermines(s, versions, h.k, g.x, h.x);
    }
  }

  lemma OwnExplained(w: World, p: Pid)
    requires Valid(w) && Busy(w, p)
    ensures forall g :: g in w.procs[p].own ==> Explained(w.schema, w.versions, g.k, g.x)
  {
    assert ProcessGood(w, w.procs[p]);
    forall g | g in w.procs[p].own ensures Explained(w.schema, w.versions, g.k, g.x) {
      assert OwnGood(w, w.procs[p].started, g);
    }
  }

  lemma KeepAlike(w: World, w': World, p: Pid, h: Held, h': Held)
    requires Alike(w, w') && Busy(w, p) && Busy(w', p) && BareHeld(h) == BareHeld(h')
    ensures Alike(Keep(w, p, h), Keep(w', p, h'))
  {
    assert AlikeProcess(w.procs[p], w'.procs[p]);
    BareSetAdd(w.procs[p].own, h);
    BareSetAdd(w.procs[p].seen, h);
    BareSetAdd(w'.procs[p].own, h');
    BareSetAdd(w'.procs[p].seen, h');
  }

  lemma ReadAlike(w: World, w': World, p: Pid, k: Key)
    requires w.versions != [] && w'.versions != [] && Alike(w, w')
    requires Enabled(w, ReadRow(p, k)) && Enabled(w', ReadRow(p, k))
    ensures Alike(Next(w, ReadRow(p, k)), Next(w', ReadRow(p, k)))
  {
    var n := w.Last();
    assert w.versions[n].rows.Keys == w'.versions[n].rows.Keys;
    assert k in w.Rows().Keys <==> k in w'.Rows().Keys;
    assert AlikeProcess(w.procs[p], w'.procs[p]);
    if k in w.Rows() {
      KeepAlike(w, w', p, Held(k, Sample(Some(w.Rows()[k]), n, w.now, [])),
                Held(k, Sample(Some(w'.Rows()[k]), n, w.now, [])));
    }
  }

  lemma ReuseAlike(w: World, w': World, p: Pid, k: Key)
    requires w.versions != [] && w'.versions != [] && Alike(w, w')
    requires Enabled(w, Reuse(p, k)) && Enabled(w', Reuse(p, k))
    ensures Alike(Next(w, Reuse(p, k)), Next(w', Reuse(p, k)))
  {
    assert AlikeProcess(w.procs[p], w'.procs[p]);
    BareSetAdd(w.procs[p].seen, Held(k, w.cache[k].x));
    BareSetAdd(w'.procs[p].seen, Held(k, w'.cache[k].x));
  }

  lemma FillAlikeProcess(w: World, w': World, p: Pid, h: Held, h': Held)
    requires Valid(w) && Valid(w') && Busy(w, p) && Busy(w', p) && AlikeProcess(w.procs[p], w'.procs[p])
    requires BareHeld(h) == BareHeld(h') && h in w.procs[p].own && h' in w'.procs[p].own
    ensures AlikeProcess(w.procs[p].(own := w.procs[p].own - {h}), w'.procs[p].(own := w'.procs[p].own - {h'}))
  {
    OwnExplained(w, p);
    OwnExplained(w', p);
    BareSetDrop(w.schema, w.versions, w.procs[p].own, h);
    BareSetDrop(w'.schema, w'.versions, w'.procs[p].own, h');
  }

  lemma FillAlike(w: World, w': World, p: Pid, h: Held, h': Held)
    requires Valid(w) && Valid(w') && Alike(w, w') && BareHeld(h) == BareHeld(h')
    requires Enabled(w, Fill(p, h)) && Enabled(w', Fill(p, h'))
    ensures Alike(Next(w, Fill(p, h)), Next(w', Fill(p, h')))
  {
    assert AlikeProcess(w.procs[p], w'.procs[p]);
    FillAlikeProcess(w, w', p, h, h');
    FillsAlike(w, w', p, h, h', w.procs[p].(own := w.procs[p].own - {h}), w'.procs[p].(own := w'.procs[p].own - {h'}));
  }

  lemma FillsAlike(w: World, w': World, p: Pid, h: Held, h': Held, q: Process, q': Process)
    requires Alike(w, w') && BareHeld(h) == BareHeld(h') && p in w.procs && AlikeProcess(q, q')
    ensures Alike(w.(cache := w.cache[h.k := CacheEntry(h.x, w.now)], procs := w.procs[p := q]),
                  w'.(cache := w'.cache[h'.k := CacheEntry(h'.x, w'.now)], procs := w'.procs[p := q']))
  {
  }

  lemma WriteAlike(w: World, w': World, p: Pid, k: Key, v: Option<Value>, v': Option<Value>)
    requires w.versions != [] && w'.versions != [] && Alike(w, w') && v.Some? == v'.Some?
    requires Enabled(w, Write(p, k, v)) && Enabled(w', Write(p, k, v'))
    ensures Alike(Next(w, Write(p, k, v)), Next(w', Write(p, k, v')))
  {
    var n := w.Last();
    assert w.versions[n].rows.Keys == w'.versions[n].rows.Keys;
    assert Assigned(w.Rows(), k, v).Keys == Assigned(w'.Rows(), k, v').Keys;
  }

  lemma InvalidateAlike(w: World, w': World, p: Pid)
    requires w.versions != [] && w'.versions != [] && Alike(w, w')
    requires Enabled(w, Invalidate(p)) && Enabled(w', Invalidate(p))
    ensures Alike(Next(w, Invalidate(p)), Next(w', Invalidate(p)))
  {
    assert AlikeProcess(w.procs[p], w'.procs[p]);
  }

  lemma DefaultAlike(w: World, w': World, p: Pid, k: Key, version: nat, at: nat)
    requires w.versions != [] && w'.versions != [] && Alike(w, w')
    requires Enabled(w, TakeDefault(p, k, version, at)) && Enabled(w', TakeDefault(p, k, version, at))
    ensures Alike(Next(w, TakeDefault(p, k, version, at)), Next(w', TakeDefault(p, k, version, at)))
  {
    KeepAlike(w, w', p, Held(k, Sample(w.schema.presets[k].v, version, at, [])),
              Held(k, Sample(w'.schema.presets[k].v, version, at, [])));
  }

  lemma ComputeAlike(w: World, w': World, p: Pid, k: Key, version: nat, at: nat, inputs: seq<Sample>,
                     inputs': seq<Sample>)
    requires w.versions != [] && w'.versions != [] && Alike(w, w') && BareAll(inputs) == BareAll(inputs')
    requires Enabled(w, Compute(p, k, version, at, inputs)) && Enabled(w', Compute(p, k, version, at, inputs'))
    ensures Alike(Next(w, Compute(p, k, version, at, inputs)), Next(w', Compute(p, k, version, at, inputs')))
  {
    KeepAlike(w, w', p, Held(k, Sample(w.schema.presets[k].f(ValuesOf(inputs)), version, at, inputs)),
              Held(k, Sample(w'.schema.presets[k].f(ValuesOf(inputs')), version, at, inputs')));
  }

  lemma PlainAlike(w: World, w': World, s: Step)
    requires w.versions != [] && w'.versions != [] && Alike(w, w') && Enabled(w, s) && Enabled(w', s)
    requires s.Begin? || s.Finish? || s.Tick?
    ensures Alike(Next(w, s), Next(w', s))
  {
  }

  /** From alike worlds alike steps lead to alike worlds. */
  lemma NextAlike(w: World, s: Step, w': World, s': Step)
    requires Valid(w) && Valid(w') && Alike(w, w') && BareStep(s) == BareStep(s') && Enabled(w, s) && Enabled(w', s')
    ensures Alike(Next(w, s), Next(w', s'))
  {
    match s
    case Reuse(p, k) => ReuseAlike(w, w', p, k);
    case ReadRow(p, k) => ReadAlike(w, w', p, k);
    case TakeDefault(p, k, version, at) => DefaultAlike(w, w', p, k, version, at);
    case Compute(p, k, version, at, inputs) => ComputeAlike(w, w', p, k, version, at, inputs, s'.inputs);
    case Fill(p, h) => FillAlike(w, w', p, h, s'.h);
    case Write(p, k, v) => WriteAlike(w, w', p, k, v, s'.v);
    case Invalidate(p) => InvalidateAlike(w, w', p);
    case _ => PlainAlike(w, w', s);
  }

  lemma PendingAlike(w: World, w': World, k: Key)
    requires Alike(w, w') && w.Pending(k)
    ensures w'.Pending(k)
  {
    var p :| p in w.procs && w.procs[p].Invalidating? && w.procs[p].version < |w.versions| &&
             k in w.schema.Touched(w.versions[w.procs[p].version].key);
    assert AlikeProcess(w.procs[p], w'.procs[p]);
    assert w'.procs[p].Invalidating?;
  }

  lemma AlikeBack(w: World, w': World)
    requires Alike(w, w')
    ensures Alike(w', w)
  {
    forall p | p in w'.procs ensures AlikeProcess(w'.procs[p], w.procs[p]) {
      assert AlikeProcess(w.procs[p], w'.procs[p]);
    }
  }

  lemma OutdatedFillAlike(w: World, s: Step, w': World, s': Step)
    requires Valid(w) && Valid(w') && Alike(w, w') && BareStep(s) == BareStep(s') && Enabled(w, s) && OutdatedFill(w, s)
    ensures OutdatedFill(w', s')
  {
    NotPendingAlike(w, w', s.h.k);
    OwnExplained(w, s.p);
    OutdatedValueAlike(w, w', s.h, s'.h);
  }

  lemma NotPendingAlike(w: World, w': World, k: Key)
    requires Alike(w, w') && !w.Pending(k)
    ensures !w'.Pending(k)
  {
    AlikeBack(w, w');
    if w'.Pending(k) {
      PendingAlike(w', w, k);
    }
  }

  lemma OutdatedValueAlike(w: World, w': World, h: Held, h': Held)
    requires w.schema.WellFounded() && w.versions != [] && Alike(w, w') && BareHeld(h) == BareHeld(h')
    requires Explained(w.schema, w.versions, h.k, h.x) && Outdated(w.schema, w.versions, h.k, h.x)
    ensures Outdated(w'.schema, w'.versions, h'.k, h'.x)
  {
    OutdatedAlike(w.schema, w'.schema, w.versions, w'.versions, h.k, h.x, h'.x);
  }

  // ---------------------------------------------------------------- runs of one shape

  lemma {:induction false} NoOutdatedFillAlike(w: World, steps: seq<Step>, w': World, steps': seq<Step>)
    requires Valid(w) && Valid(w') && Alike(w, w') && AlikeSteps(steps, steps') && Runs(w, steps) && Runs(w', steps')
    requires NoOutdatedFill(w, steps)
    ensures NoOutdatedFill(w', steps')
    decreases |steps|
  {
    if steps != [] {
      var s, s' := steps[0], steps'[0];
      if OutdatedFill(w', s') {
        AlikeBack(w, w');
        OutdatedFillAlike(w', s', w, s);
      }
      StepValid(w, s);
      StepValid(w', s');
      NextAlike(w, s, w', s');
      NoOutdatedFillAlike(Next(w, s), steps[1..], Next(w', s'), steps'[1..]);
    }
  }

  lemma {:induction false} InfluenceAlike(s: Schema, s': Schema, k: Key)
    requires s.WellFounded() && s'.WellFounded() && AlikeSchemas(s, s') && k in s.presets
    ensures Influence(s, k) == Influence(s', k)
    decreases s.rank[k]
  {
    forall r | r in s.Needs(k) ensures Influence(s, r) == Influence(s', r) {
      InfluenceAlike(s, s', r);
    }
  }

  lemma CoveredAlike(s: Schema, s': Schema)
    requires s.WellFounded() && s'.WellFounded() && AlikeSchemas(s, s') && s.Covered()
    ensures s'.Covered()
  {
    forall k, z | k in s'.presets && z in Influence(s', k) ensures z in s'.dependsOn[k] {
      InfluenceAlike(s, s', k);
    }
  }

  lemma InitialCoherent(w: World)
    requires Initial(w)
    ensures Valid(w) && Coherent(w)
  {
    InitialValid(w);
  }

  /** Without fills of values that are out of date every run of the shape is coherent throughout. */
  lemma ShapeCoherent(w: World, steps: seq<Step>, w': World, steps': seq<Step>)
    requires Initial(w) && w.schema.Covered() && Runs(w, steps) && NoOutdatedFill(w, steps)
    requires SameShape(w, steps, w', steps')
    ensures CoherentThroughout(w', steps')
  {
    InitialCoherent(w);
    InitialCoherent(w');
    NoOutdatedFillAlike(w, steps, w', steps');
    CoveredAlike(w.schema, w'.schema);
    CoherentWithoutOutdatedFills(w', steps');
  }

  // ---------------------------------------------------------------- values that tell where they are from

  function Encoded(v: Option<Value>): Value {
    if v.Some? then ListOf([v.value]) else Null
  }

  function EncodedAll(vs: seq<Option<Value>>): (r: seq<Value>)
    ensures |r| == |vs| && forall i :: 0 <= i < |vs| ==> r[i] == Encoded(vs[i])
  {
    if vs == [] then [] else [Encoded(vs[0])] + EncodedAll(vs[1..])
  }

  function Listed(vs: seq<Option<Value>>): Option<Value> {
    Some(ListOf(EncodedAll(vs)))
  }

  lemma ListedApart(vs: seq<Option<Value>>, us: seq<Option<Value>>, i: nat)
    requires i < |vs| == |us| && vs[i] != us[i]
    ensures Listed(vs) != Listed(us)
  {
    assert EncodedAll(vs)[i] != EncodedAll(us)[i];
  }

  function Telltale(p: Preset): Preset {
    match p
    case Fixed(_) => Fixed(Some(Null))
    case Computed(needs, _) => Computed(needs, vs => Listed(vs))
  }

  function TelltaleSchema(s: Schema): Schema {
    s.(presets := map k | k in s.presets :: Telltale(s.presets[k]))
  }

  /** Defaults tell what they were computed from. */
  ghost predicate TellingDefaults(s: Schema) {
    forall k :: k in s.presets ==>
      match s.presets[k]
      case Fixed(v) => v == Some(Null)
      case Computed(_, f) => forall vs :: f(vs) == Listed(vs)
  }

  /** Rows tell which write made them. */
  ghost predicate TellingRows(versions: seq<Version>) {
    forall n, k {:trigger TellingRow(versions, n, k)} ::
      0 <= n < |versions| && k in versions[n].rows ==> TellingRow(versions, n, k)
  }

  ghost predicate TellingRow(versions: seq<Version>, n: nat, k: Key)
    requires n < |versions| && k in versions[n].rows
  {
    versions[n].rows[k] == Number(Origin(versions, n, k).value)
  }

  ghost predicate Telling(w: World) {
    TellingDefaults(w.schema) && TellingRows(w.versions)
  }

  lemma TelltaleSchemaTells(s: Schema)
    requires s.WellFounded()
    ensures TellingDefaults(TelltaleSchema(s)) && AlikeSchemas(s, TelltaleSchema(s)) && TelltaleSchema(s).WellFounded()
  {
    var s' := TelltaleSchema(s);
    forall k | k in s.presets ensures s'.Needs(k) == s.Needs(k) && s'.presets[k] == Telltale(s.presets[k]) {
    }
  }

  lemma ExplainedIsSome(s: Schema, versions: seq<Version>, k: Key, x: Sample)
    requires TellingDefaults(s) && Explained(s, versions, k, x)
    ensures x.v.Some?
  {
    if k !in versions[x.version].rows && s.presets[k].Computed? {
      assert s.presets[k].f(ValuesOf(x.inputs)) == Listed(ValuesOf(x.inputs));
    }
  }

  /** A setting with no row means its constant, or a list. */
  lemma TellingDefault(s: Schema, rows: map<Key, Value>, k: Key)
    requires s.WellFounded() && TellingDefaults(s) && k in s.presets && k !in rows
    ensures s.presets[k].Fixed? ==> Meaning(s, rows, k) == Some(Null)
    ensures s.presets[k].Computed? ==>
              Meaning(s, rows, k) == Listed(Meanings(s, rows, s.Needs(k), s.rank[k]))
  {
  }

  lemma {:induction false} MeaningsAt(s: Schema, rows: map<Key, Value>, ks: seq<Key>, bound: nat, i: nat)
    requires s.WellFounded() && forall k :: k in ks ==> k in s.presets && s.rank[k] < bound
    requires i < |ks|
    ensures |Meanings(s, rows, ks, bound)| == |ks| && Meanings(s, rows, ks, bound)[i] == Meaning(s, rows, ks[i])
    decreases |ks|
  {
    if i > 0 {
      MeaningsAt(s, rows, ks[1..], bound, i - 1);
    } else if |ks| > 1 {
      MeaningsAt(s, rows, ks[1..], bound, 0);
    }
  }

  /** When values tell where they are from, a value that is out of date differs from what the setting means now. */
  lemma {:induction false} OutdatedDiffers(s: Schema, versions: seq<Version>, k: Key, x: Sample)
    requires s.WellFounded() && versions != [] && TellingDefaults(s) && TellingRows(versions)
    requires Explained(s, versions, k, x) && Outdated(s, versions, k, x)
    ensures x.v != Meaning(s, versions[|versions| - 1].rows, k)
    decreases x
  {
    var n := |versions| - 1;
    var last := versions[n].rows;
    if k in last {
      assert TellingRow(versions, n, k);
    } else {
      TellingDefault(s, last, k);
    }
    if k in versions[x.version].rows {
      assert TellingRow(versions, x.version, k);
    } else if s.presets[k].Computed? {
      assert s.presets[k].f(ValuesOf(x.inputs)) == Listed(ValuesOf(x.inputs));
      if k !in last {
        var i :| 0 <= i < |x.inputs| && i < |s.Needs(k)| && Outdated(s, versions, s.Needs(k)[i], x.inputs[i]);
        OutdatedDiffers(s, versions, s.Needs(k)[i], x.inputs[i]);
        InputDiffers(s, last, k, x.inputs, i);
      }
    }
  }

  lemma InputDiffers(s: Schema, rows: map<Key, Value>, k: Key, inputs: seq<Sample>, i: nat)
    requires s.WellFounded() && k in s.presets && |inputs| == |s.Needs(k)| && i < |inputs|
    requires inputs[i].v != Meaning(s, rows, s.Needs(k)[i])
    ensures Listed(ValuesOf(inputs)) != Listed(Meanings(s, rows, s.Needs(k), s.rank[k]))
  {
    MeaningsAt(s, rows, s.Needs(k), s.rank[k], i);
    ListedApart(ValuesOf(inputs), Meanings(s, rows, s.Needs(k), s.rank[k]), i);
  }

  // ---------------------------------------------------------------- the telling run of a shape

  lemma {:induction false} OriginGrows(versions: seq<Version>, v: Version, n: nat, k: Key)
    requires n < |versions|
    ensures Origin(versions + [v], n, k) == Origin(versions, n, k)
  {
    var grown := versions + [v];
    assert grown[n] == versions[n];
    if n > 0 {
      assert grown[n - 1] == versions[n - 1];
      OriginGrows(versions, v, n - 1, k);
    }
  }

  lemma TellingRowKept(versions: seq<Version>, next: Version, n: nat, k: Key)
    requires n < |versions| && k in versions[n].rows && TellingRow(versions, n, k)
    ensures k in (versions + [next])[n].rows && TellingRow(versions + [next], n, k)
  {
    assert (versions + [next])[n] == versions[n];
    OriginGrows(versions, next, n, k);
  }

  lemma TellingRowCopied(versions: seq<Version>, next: Version, k: Key)
    requires versions != [] && k in versions[|versions| - 1].rows && TellingRow(versions, |versions| - 1, k)
    requires next.key != k && k in next.rows && next.rows[k] == versions[|versions| - 1].rows[k]
    ensures TellingRow(versions + [next], |versions|, k)
  {
    var n, grown := |versions|, versions + [next];
    assert grown[n] == next && grown[n - 1] == versions[n - 1];
    OriginGrows(versions, next, n - 1, k);
    assert Origin(grown, n, k) == Origin(grown, n - 1, k);
  }

  /** A write of its own number keeps rows telling. */
  lemma TellingWrite(versions: seq<Version>, since: nat, k: Key, v: Option<Value>)
    requires versions != [] && TellingRows(versions) && (v.Some? ==> v.value == Number(|versions|))
    ensures TellingRows(versions + [Version(Assigned(versions[|versions| - 1].rows, k, v), since, k)])
  {
    var n := |versions|;
    var next := Version(Assigned(versions[n - 1].rows, k, v), since, k);
    var grown := versions + [next];
    assert grown[n] == next;
    forall i, j | 0 <= i < |grown| && j in grown[i].rows ensures TellingRow(grown, i, j) {
      if i < n {
        assert grown[i] == versions[i];
        assert TellingRow(versions, i, j);
        TellingRowKept(versions, next, i, j);
      } else if j != k {
        assert TellingRow(versions, n - 1, j);
        TellingRowCopied(versions, next, j);
      }
    }
  }

  lemma HeldAlike(hs: set<Held>, hs': set<Held>, h: Held) returns (h': Held)
    requires BareSet(hs) == BareSet(hs') && h in hs
    ensures h' in hs' && BareHeld(h') == BareHeld(h)
  {
    assert BareHeld(h) in BareSet(hs);
    h' :| h' in hs' && BareHeld(h') == BareHeld(h);
  }

  lemma {:induction false} InputsAlike(needs: seq<Key>, inputs: seq<Sample>, seen: set<Held>, seen': set<Held>)
    returns (inputs': seq<Sample>)
    requires BareSet(seen) == BareSet(seen') && |inputs| == |needs|
    requires forall i :: 0 <= i < |inputs| ==> Held(needs[i], inputs[i]) in seen
    ensures |inputs'| == |needs| && BareAll(inputs') == BareAll(inputs)
    ensures forall i :: 0 <= i < |inputs'| ==> Held(needs[i], inputs'[i]) in seen'
    decreases |inputs|
  {
    if inputs == [] {
      inputs' := [];
    } else {
      assert Held(needs[0], inputs[0]) in seen;
      var h' := HeldAlike(seen, seen', Held(needs[0], inputs[0]));
      forall i | 0 <= i < |inputs[1..]| ensures Held(needs[1..][i], inputs[1..][i]) in seen {
        assert Held(needs[i + 1], inputs[i + 1]) in seen;
      }
      var rest := InputsAlike(needs[1..], inputs[1..], seen, seen');
      inputs' := [h'.x] + rest;
      assert inputs'[1..] == rest;
      forall i | 0 <= i < |inputs'| ensures Held(needs[i], inputs'[i]) in seen' {
        if i > 0 {
          assert Held(needs[1..][i - 1], rest[i - 1]) in seen';
        }
      }
    }
  }

  lemma EchoCompute(w: World, w': World, p: Pid, k: Key, version: nat, at: nat, inputs: seq<Sample>)
    returns (inputs': seq<Sample>)
    requires w.versions != [] && w'.versions != [] && Alike(w, w') && Enabled(w, Compute(p, k, version, at, inputs))
    ensures BareAll(inputs') == BareAll(inputs) && Enabled(w', Compute(p, k, version, at, inputs'))
  {
    assert AlikeProcess(w.procs[p], w'.procs[p]);
    inputs' := InputsAlike(w.schema.Needs(k), inputs, w.procs[p].seen, w'.procs[p].seen);
  }

  lemma EchoFill(w: World, w': World, p: Pid, h: Held) returns (h': Held)
    requires w.versions != [] && w'.versions != [] && Alike(w, w') && Enabled(w, Fill(p, h))
    ensures BareHeld(h') == BareHeld(h) && Enabled(w', Fill(p, h'))
  {
    assert AlikeProcess(w.procs[p], w'.procs[p]);
    h' := HeldAlike(w.procs[p].own, w'.procs[p].own, h);
  }

  lemma EchoReuse(w: World, w': World, p: Pid, k: Key)
    requires w.versions != [] && Valid(w') && Alike(w, w') && Telling(w') && Enabled(w, Reuse(p, k))
    ensures Enabled(w', Reuse(p, k))
  {
    assert AlikeProcess(w.procs[p], w'.procs[p]);
    assert EntryGood(w', k);
    ExplainedIsSome(w'.schema, w'.versions, k, w'.cache[k].x);
  }

  lemma EchoTick(w: World, w': World, n: nat)
    requires w.versions != [] && w'.versions != [] && Alike(w, w') && Enabled(w, Tick(n))
    ensures Enabled(w', Tick(n))
  {
    forall p | Busy(w', p) ensures w'.now + n <= w'.procs[p].started + w'.patience {
      assert AlikeProcess(w.procs[p], w'.procs[p]) && Busy(w, p);
    }
  }

  lemma EchoSame(w: World, w': World, s: Step)
    requires w.versions != [] && w'.versions != [] && Alike(w, w') && Enabled(w, s)
    requires !s.Compute? && !s.Fill? && !s.Reuse? && !s.Tick? && !s.Write?
    ensures Enabled(w', s)
  {
    assert AlikeProcess(w.procs[s.p], w'.procs[s.p]);
  }

  lemma EchoWrite(w: World, w': World, p: Pid, k: Key, v: Option<Value>, v': Option<Value>)
    requires w.versions != [] && w'.versions != [] && Alike(w, w') && Enabled(w, Write(p, k, v))
    ensures Enabled(w', Write(p, k, v'))
  {
    assert AlikeProcess(w.procs[p], w'.procs[p]);
  }

  /** A write of a number writes its own. */
  predicate OwnNumber(w: World, s: Step) {
    s.Write? && s.v.Some? ==> s.v.value == Number(|w.versions|)
  }

  /** The same step in the telling world. */
  lemma Echo(w: World, s: Step, w': World) returns (s': Step)
    requires w.versions != [] && Valid(w') && Alike(w, w') && Telling(w') && Enabled(w, s)
    ensures BareStep(s') == BareStep(s) && Enabled(w', s') && OwnNumber(w', s')
  {
    match s
    case Compute(p, k, version, at, inputs) =>
      var inputs' := EchoCompute(w, w', p, k, version, at, inputs);
      s' := Compute(p, k, version, at, inputs');
    case Fill(p, h) =>
      var h' := EchoFill(w, w', p, h);
      s' := Fill(p, h');
    case Write(p, k, v) =>
      var v' := if v.Some? then Some(Number(|w'.versions|)) else None;
      EchoWrite(w, w', p, k, v, v');
      s' := Write(p, k, v');
    case Reuse(p, k) =>
      EchoReuse(w, w', p, k);
      s' := s;
    case Tick(n) =>
      EchoTick(w, w', n);
      s' := s;
    case _ =>
      EchoSame(w, w', s);
      s' := s;
  }

  lemma TellingNext(w: World, s: Step)
    requires w.versions != [] && TellingRows(w.versions) && Enabled(w, s) && OwnNumber(w, s)
    ensures TellingRows(Next(w, s).versions)
  {
    if s.Write? {
      TellingWrite(w.versions, w.now, s.k, s.v);
      assert Next(w, s).versions == w.versions + [Version(Assigned(w.Rows(), s.k, s.v), w.now, s.k)];
    } else {
      assert Next(w, s).versions == w.versions;
    }
  }

  /** A fill of a value that differs from what the setting means shows. */
  lemma FillShows(w: World, s: Step)
    requires w.versions != [] && w.schema.WellFounded() && Enabled(w, s) && s.Fill? && !w.Pending(s.h.k)
    requires s.h.k in w.schema.presets && s.h.x.v != Meaning(w.schema, w.Rows(), s.h.k)
    ensures !Coherent(Next(w, s))
  {
    var w', k := Next(w, s), s.h.k;
    SamePending(w, s);
    assert w'.Live(k) && !w'.Pending(k) && !Agrees(w', k);
  }

  /** In a telling world a fill of a value that is out of date shows. */
  lemma OutdatedFillShows(w: World, s: Step)
    requires Valid(w) && Telling(w) && Enabled(w, s) && OutdatedFill(w, s)
    ensures !Coherent(Next(w, s))
  {
    OwnExplained(w, s.p);
    OutdatedDiffers(w.schema, w.versions, s.h.k, s.h.x);
    FillShows(w, s);
  }

  lemma EchoStep(w: World, s: Step, w': World) returns (s': Step)
    requires Valid(w) && Valid(w') && Alike(w, w') && Telling(w') && Enabled(w, s)
    ensures BareStep(s') == BareStep(s) && Enabled(w', s')
    ensures Valid(Next(w, s)) && Valid(Next(w', s')) && Alike(Next(w, s), Next(w', s')) && Telling(Next(w', s'))
    ensures OutdatedFill(w, s) ==> !Coherent(Next(w', s'))
  {
    s' := Echo(w, s, w');
    StepValid(w, s);
    StepValid(w', s');
    NextAlike(w, s, w', s');
    TellingNext(w', s');
    if OutdatedFill(w, s) {
      OutdatedFillAlike(w, s, w', s');
      OutdatedFillShows(w', s');
    }
  }

  /** The telling run of a shape: it is incoherent somewhere if a value that is out of date is stored. */
  lemma {:induction false} EchoRun(w: World, steps: seq<Step>, w': World) returns (steps': seq<Step>)
    requires Valid(w) && Valid(w') && Alike(w, w') && Telling(w') && Runs(w, steps)
    ensures AlikeSteps(steps, steps') && Runs(w', steps')
    ensures CoherentThroughout(w', steps') ==> NoOutdatedFill(w, steps)
    decreases |steps|
  {
    steps' := [];
    if steps != [] {
      var s' := EchoStep(w, steps[0], w');
      var rest := EchoRun(Next(w, steps[0]), steps[1..], Next(w', s'));
      steps' := [s'] + rest;
      AlikeCons(steps, s', rest);
      RunsCons(w', s', rest);
      CoherentCons(w', s', rest);
    }
  }

  lemma CoherentCons(w: World, s: Step, rest: seq<Step>)
    requires w.versions != [] && w.schema.WellFounded() && Enabled(w, s) && Runs(Next(w, s), rest)
    ensures Runs(w, [s] + rest)
    ensures CoherentThroughout(w, [s] + rest) ==> Coherent(Next(w, s)) && CoherentThroughout(Next(w, s), rest)
  {
    var steps := [s] + rest;
    assert steps[0] == s && steps[1..] == rest;
    if CoherentThroughout(w, steps) {
      CoherentNow(Next(w, s), rest);
    }
  }

  lemma CoherentNow(w: World, steps: seq<Step>)
    requires w.versions != [] && w.schema.WellFounded() && Runs(w, steps) && CoherentThroughout(w, steps)
    ensures Coherent(w)
  {
  }

  lemma AlikeCons(steps: seq<Step>, s': Step, rest: seq<Step>)
    requires steps != [] && BareStep(s') == BareStep(steps[0]) && AlikeSteps(steps[1..], rest)
    ensures AlikeSteps(steps, [s'] + rest)
  {
    forall i | 0 <= i < |steps| ensures BareStep(steps[i]) == BareStep(([s'] + rest)[i]) {
      if i > 0 {
        assert BareStep(steps[1..][i - 1]) == BareStep(rest[i - 1]);
      }
    }
  }

  ghost function TelltaleStart(w: World): World
    requires Initial(w)
  {
    w.(schema := TelltaleSchema(w.schema),
       versions := [Version(map k | k in w.versions[0].rows :: Number(0), w.versions[0].since, w.versions[0].key)])
  }

  lemma TelltaleStartTells(w: World)
    requires Initial(w)
    ensures Initial(TelltaleStart(w)) && Alike(w, TelltaleStart(w)) && Telling(TelltaleStart(w))
  {
    TelltaleSchemaTells(w.schema);
    var w' := TelltaleStart(w);
    assert w'.versions[0].rows.Keys == w.versions[0].rows.Keys;
    forall n, k | 0 <= n < |w'.versions| && k in w'.versions[n].rows ensures TellingRow(w'.versions, n, k) {
    }
  }

  // ---------------------------------------------------------------- the exact condition

  ghost predicate CoherentWhateverIsWritten(w: World, steps: seq<Step>) {
    forall w', steps' :: SameShape(w, steps, w', steps') ==> CoherentThroughout(w', steps')
  }

  /** Every run of a shape, whatever it writes and whatever the defaults, is coherent throughout exactly when the shape
      has no fill of a value that is out of date, up to pending invalidations. */
  lemma CoherentExactlyByEvents(w: World, steps: seq<Step>)
    requires Initial(w) && w.schema.Covered() && Runs(w, steps)
    ensures NoOutdatedFill(w, steps) <==> CoherentWhateverIsWritten(w, steps)
  {
    if NoOutdatedFill(w, steps) {
      forall w', steps' | SameShape(w, steps, w', steps') ensures CoherentThroughout(w', steps') {
        ShapeCoherent(w, steps, w', steps');
      }
    }
    if CoherentWhateverIsWritten(w, steps) {
      InitialValid(w);
      TelltaleStartTells(w);
      var w' := TelltaleStart(w);
      InitialValid(w');
      var steps' := EchoRun(w, steps, w');
      assert SameShape(w, steps, w', steps');
    }
  }
}
