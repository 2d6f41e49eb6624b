/** Several processes sharing one settings cache and one database.

    Database reads, cache hits, fills, writes and invalidations of different processes interleave freely.  A default
    may be computed from other settings, each read through the shared cache or, on a miss, from the database; so a
    fill may store a value computed from inputs that were read at different times.  The database is seen as each
    setting's present row value, its past is kept as a list of versions, and every value read or computed carries its
    provenance. */
module CacheProcesses {
  import opened Wrappers
  import opened SettingValues

  type Pid = nat

  // ---------------------------------------------------------------- settings

  datatype Preset =
    | Fixed(v: Option<Value>)                             // a constant default, or none
    | Computed(needs: seq<Key>, f: seq<Option<Value>> -> Option<Value>)

  datatype Schema = Schema(presets: map<Key, Preset>, rank: map<Key, nat>, dependsOn: map<Key, set<Key>>) {
    function Needs(k: Key): seq<Key> {
      if k in presets && presets[k].Computed? then presets[k].needs else []
    }

    /** Defaults are computed from settings of lower rank. */
    ghost predicate WellFounded() {
      && rank.Keys == presets.Keys && dependsOn.Keys == presets.Keys
      && (forall k, r :: k in presets && r in Needs(k) ==> r in presets && rank[r] < rank[k])
    }

    /** depends_on names every setting that can influence a default, directly or not. */
    ghost predicate Covered()
      requires WellFounded()
    {
      forall k, z :: k in presets && z in Influence(this, k) ==> z in dependsOn[k]
    }

    /** What a change of z drops from the cache. */
    function Touched(z: Key): set<Key> {
      {z} + set k | k in dependsOn && z in dependsOn[k]
    }
  }

  ghost function Influence(s: Schema, k: Key): set<Key>
    requires s.WellFounded() && k in s.presets
    decreases s.rank[k]
  {
    set r, x | r in s.Needs(k) && x in {r} + Influence(s, r) :: x
  }

  /** What a setting means: its row, else its default. */
  ghost function Meaning(s: Schema, rows: map<Key, Value>, k: Key): Option<Value>
    requires s.WellFounded() && k in s.presets
    decreases s.rank[k], 1
  {
    if k in rows then Some(rows[k])
    else
      match s.presets[k]
      case Fixed(v) => v
      case Computed(needs, f) =>
        assert needs == s.Needs(k);
        f(Meanings(s, rows, needs, s.rank[k]))
  }

  ghost function Meanings(s: Schema, rows: map<Key, Value>, ks: seq<Key>, bound: nat): seq<Option<Value>>
    requires s.WellFounded() && forall k :: k in ks ==> k in s.presets && s.rank[k] < bound
    decreases bound, 0, |ks|
  {
    if ks == [] then [] else [Meaning(s, rows, ks[0])] + Meanings(s, rows, ks[1..], bound)
  }

  lemma {:induction false} MeaningsAre(s: Schema, rows: map<Key, Value>, ks: seq<Key>, bound: nat,
                                       vs: seq<Option<Value>>)
    requires s.WellFounded() && forall k :: k in ks ==> k in s.presets && s.rank[k] < bound
    requires |vs| == |ks| && forall i :: 0 <= i < |ks| ==> vs[i] == Meaning(s, rows, ks[i])
    ensures Meanings(s, rows, ks, bound) == vs
    decreases |ks|
  {
    if ks != [] {
      MeaningsAre(s, rows, ks[1..], bound, vs[1..]);
      assert vs == [vs[0]] + vs[1..];
    }
  }

  // ---------------------------------------------------------------- where a value comes from

  function Times(n: nat, unit: nat): nat {
    if n == 0 then 0 else Times(n - 1, unit) + unit
  }

  lemma {:induction false} TimesIsProduct(n: nat, unit: nat)
    ensures Times(n, unit) == n * unit
  {
    if n > 0 {
      TimesIsProduct(n - 1, unit);
      assert n * unit == (n - 1) * unit + unit;
    }
  }

  /** The database after one write, when that write was made, and of which setting. */
  datatype Version = Version(rows: map<Key, Value>, since: nat, key: Key)

  /** A value, the version in which its row was looked up and when, and, if there was no row and the default is
      computed, the inputs it was computed from. */
  datatype Sample = Sample(v: Option<Value>, version: nat, at: nat, inputs: seq<Sample>)

  function ValuesOf(samples: seq<Sample>): (r: seq<Option<Value>>)
    ensures |r| == |samples| && forall i :: 0 <= i < |samples| ==> r[i] == samples[i].v
  {
    if samples == [] then [] else [samples[0].v] + ValuesOf(samples[1..])
  }

  /** The version was the database at that time. */
  predicate InForce(versions: seq<Version>, version: nat, at: nat) {
    version < |versions| && versions[version].since <= at &&
    (version + 1 < |versions| ==> at <= versions[version + 1].since)
  }

  /** The sample of k is what the rows and defaults of the versions it was read from make it. */
  ghost predicate Explained(s: Schema, versions: seq<Version>, k: Key, x: Sample)
    decreases x
  {
    && k in s.presets && InForce(versions, x.version, x.at)
    && if k in versions[x.version].rows then x.v == Some(versions[x.version].rows[k]) && x.inputs == []
       else if s.presets[k].Fixed? then x.v == s.presets[k].v && x.inputs == []
       else
         && |x.inputs| == |s.Needs(k)| && x.v == s.presets[k].f(ValuesOf(x.inputs))
         && forall i {:trigger Explained(s, versions, s.Needs(k)[i], x.inputs[i])} ::
              0 <= i < |x.inputs| ==> Explained(s, versions, s.Needs(k)[i], x.inputs[i])
  }

  /** Nothing that went into the sample was read before t. */
  ghost predicate ReadSince(x: Sample, t: int)
    decreases x
  {
    x.at >= t && forall i {:trigger ReadSince(x.inputs[i], t)} :: 0 <= i < |x.inputs| ==> ReadSince(x.inputs[i], t)
  }

  /** Nothing that went into the sample was read after t. */
  ghost predicate ReadUntil(x: Sample, t: nat)
    decreases x
  {
    x.at <= t && forall i {:trigger ReadUntil(x.inputs[i], t)} :: 0 <= i < |x.inputs| ==> ReadUntil(x.inputs[i], t)
  }

  /** Nothing that went into the sample was read in a version before n. */
  ghost predicate FromVersion(x: Sample, n: nat)
    decreases x
  {
    && x.version >= n
    && forall i {:trigger FromVersion(x.inputs[i], n)} :: 0 <= i < |x.inputs| ==> FromVersion(x.inputs[i], n)
  }

  // ---------------------------------------------------------------- the world

  datatype Held = Held(k: Key, x: Sample)

  datatype Process =
    | Idle
    /** Since `started`: what it has read or computed itself, what it can use as input (which includes cache hits), and
        for which settings it has found no row. */
    | Working(started: nat, own: set<Held>, seen: set<Held>, absent: set<(Key, nat, nat)>)
    | Invalidating(version: nat)                          // after a write

  datatype CacheEntry = CacheEntry(x: Sample, filledAt: nat) {
    function Expires(): nat { filledAt + SETTING_CACHE_TIMEOUT }
  }

  /** No operation takes longer than `patience` from its first read to its last fill; `done` holds the versions whose
      invalidation has been carried out. */
  datatype World = World(
    schema: Schema, patience: nat,
    now: nat, versions: seq<Version>,
    cache: map<Key, CacheEntry>, procs: map<Pid, Process>,
    done: set<nat>)
  {
    function Last(): nat
      requires versions != []
    {
      |versions| - 1
    }

    function Rows(): map<Key, Value>
      requires versions != []
    {
      versions[Last()].rows
    }

    predicate Live(k: Key) { k in cache && now < cache[k].Expires() }

    /** A live not-set marker sends a read on to the database. */
    predicate Usable(k: Key) { Live(k) && cache[k].x.v.Some? }

    function Age(k: Key): nat {
      if k in schema.rank then Times(schema.rank[k], SETTING_CACHE_TIMEOUT + patience) else 0
    }

    ghost predicate Pending(k: Key) {
      exists p :: p in procs && procs[p].Invalidating? && procs[p].version < |versions| &&
        k in schema.Touched(versions[procs[p].version].key)
    }
  }

  datatype Step =
    | Begin(p: Pid)
    | Reuse(p: Pid, k: Key)
    | ReadRow(p: Pid, k: Key)                             // a miss, or a preload: look for the row
    | TakeDefault(p: Pid, k: Key, version: nat, at: nat)  // no row was found, and the default is fixed
    | Compute(p: Pid, k: Key, version: nat, at: nat, inputs: seq<Sample>)
    | Fill(p: Pid, h: Held)
    | Finish(p: Pid)
    | Write(p: Pid, k: Key, v: Option<Value>)             // a row assigned, or deleted
    | Invalidate(p: Pid)
    | Tick(seconds: nat)

  predicate Busy(w: World, p: Pid) {
    p in w.procs && w.procs[p].Working?
  }

  ghost predicate Enabled(w: World, s: Step)
    requires w.versions != []
  {
    match s
    case Begin(p) => p in w.procs && w.procs[p].Idle?
    case Reuse(p, k) => Busy(w, p) && w.Usable(k)
    case ReadRow(p, k) => Busy(w, p) && k in w.schema.presets
    case TakeDefault(p, k, version, at) =>
      Busy(w, p) && (k, version, at) in w.procs[p].absent && k in w.schema.presets && w.schema.presets[k].Fixed?
    case Compute(p, k, version, at, inputs) =>
      && Busy(w, p) && (k, version, at) in w.procs[p].absent && k in w.schema.presets && w.schema.presets[k].Computed?
      && |inputs| == |w.schema.Needs(k)|
      && forall i :: 0 <= i < |inputs| ==> Held(w.schema.Needs(k)[i], inputs[i]) in w.procs[p].seen
    case Fill(p, h) => Busy(w, p) && h in w.procs[p].own
    case Finish(p) => Busy(w, p)
    case Write(p, k, _) => p in w.procs && w.procs[p].Idle? && k in w.schema.presets
    case Invalidate(p) => p in w.procs && w.procs[p].Invalidating? && w.procs[p].version < |w.versions|
    case Tick(n) => forall p :: Busy(w, p) ==> w.now + n <= w.procs[p].started + w.patience
  }

  /** A process keeps a value it has read or computed itself. */
  function Keep(w: World, p: Pid, h: Held): World
    requires Busy(w, p)
  {
    w.(procs := w.procs[p := w.procs[p].(own := w.procs[p].own + {h}, seen := w.procs[p].seen + {h})])
  }

  function Assigned(rows: map<Key, Value>, k: Key, v: Option<Value>): map<Key, Value> {
    if v.Some? then rows[k := v.value] else rows - {k}
  }

  function Next(w: World, s: Step): (r: World)
    requires w.versions != [] && Enabled(w, s)
    ensures r.versions != [] && r.schema == w.schema && r.patience == w.patience
  {
    match s
    case Begin(p) => w.(procs := w.procs[p := Working(w.now, {}, {}, {})])
    case Reuse(p, k) => w.(procs := w.procs[p := w.procs[p].(seen := w.procs[p].seen + {Held(k, w.cache[k].x)})])
    case ReadRow(p, k) =>
      if k in w.Rows() then Keep(w, p, Held(k, Sample(Some(w.Rows()[k]), w.Last(), w.now, [])))
      else w.(procs := w.procs[p := w.procs[p].(absent := w.procs[p].absent + {(k, w.Last(), w.now)})])
    case TakeDefault(p, k, version, at) => Keep(w, p, Held(k, Sample(w.schema.presets[k].v, version, at, [])))
    case Compute(p, k, version, at, inputs) =>
      Keep(w, p, Held(k, Sample(w.schema.presets[k].f(ValuesOf(inputs)), version, at, inputs)))
    case Fill(p, h) =>
      w.(cache := w.cache[h.k := CacheEntry(h.x, w.now)],
         procs := w.procs[p := w.procs[p].(own := w.procs[p].own - {h})])
    case Finish(p) => w.(procs := w.procs[p := Idle])
    case Write(p, k, v) =>
      w.(versions := w.versions + [Version(Assigned(w.Rows(), k, v), w.now, k)],
         procs := w.procs[p := Invalidating(|w.versions|)])
    case Invalidate(p) =>
      var version := w.procs[p].version;
      w.(cache := w.cache - w.schema.Touched(w.versions[version].key), procs := w.procs[p := Idle],
         done := w.done + {version})
    case Tick(n) => w.(now := w.now + n)
  }

  /** A hit is an entry less than a time-out old that is not the not-set marker; it is used as it is, and changes
      nothing else. */
  lemma ReusesExactly(w: World, p: Pid, k: Key)
    requires w.versions != []
    ensures Enabled(w, Reuse(p, k)) <==>
            && p in w.procs && w.procs[p].Working? && k in w.cache
            && w.now < w.cache[k].filledAt + 60 && w.cache[k].x.v != None
    ensures Enabled(w, Reuse(p, k)) ==>
              Held(k, w.cache[k].x) in Next(w, Reuse(p, k)).procs[p].seen && Next(w, Reuse(p, k)).cache == w.cache
  {
  }

  /** A fill stores one value that the process has read or computed, once, and changes no other entry. */
  lemma FillsExactly(w: World, p: Pid, h: Held, k: Key)
    requires w.versions != [] && Enabled(w, Fill(p, h))
    ensures var w' := Next(w, Fill(p, h));
            && h.k in w'.cache && w'.cache[h.k] == CacheEntry(h.x, w.now)
            && (k != h.k ==> (k in w'.cache <==> k in w.cache) && (k in w'.cache ==> w'.cache[k] == w.cache[k]))
            && h in w.procs[p].own && h !in w'.procs[p].own && w'.versions == w.versions
  {
  }

  /** An invalidation drops from the cache exactly the setting that was written and those whose depends_on names it. */
  lemma InvalidatesExactly(w: World, p: Pid, k: Key)
    requires w.versions != [] && Enabled(w, Invalidate(p))
    ensures var w', z := Next(w, Invalidate(p)), w.versions[w.procs[p].version].key;
            && (k in w'.cache <==> k in w.cache && k != z &&
                                   (k in w.schema.dependsOn ==> z !in w.schema.dependsOn[k]))
            && (k in w'.cache ==> w'.cache[k] == w.cache[k])
            && w'.versions == w.versions && w'.now == w.now
  {
  }

  /** A write changes the one row and nothing in the cache; the process then has the invalidation to carry out. */
  lemma WritesExactly(w: World, p: Pid, k: Key, v: Option<Value>, j: Key)
    requires w.versions != [] && Enabled(w, Write(p, k, v))
    ensures var w' := Next(w, Write(p, k, v));
            && w'.cache == w.cache && w'.now == w.now && p in w'.procs && w'.procs[p].Invalidating?
            && w'.procs[p].version == w'.Last() && w'.versions[w'.Last()].key == k
            && (if j != k then SameRow(w.Rows(), w'.Rows(), j)
                else if v == None then j !in w'.Rows() else j in w'.Rows() && Some(w'.Rows()[j]) == v)
  {
  }

  ghost predicate Runs(w: World, steps: seq<Step>)
    requires w.versions != []
    decreases |steps|
  {
    steps == [] || (Enabled(w, steps[0]) && Runs(Next(w, steps[0]), steps[1..]))
  }

  ghost function After(w: World, steps: seq<Step>): (r: World)
    requires w.versions != [] && Runs(w, steps)
    ensures r.versions != []
    decreases |steps|
  {
    if steps == [] then w else After(Next(w, steps[0]), steps[1..])
  }

  // ---------------------------------------------------------------- what every step keeps

  ghost predicate Ordered(versions: seq<Version>, now: nat) {
    && versions != []
    && (forall i, j :: 0 <= i < j < |versions| ==> versions[i].since <= versions[j].since)
    && versions[|versions| - 1].since <= now
  }

  /** Each version differs from the one before at most in the row of its own setting. */
  ghost predicate OneKeyEach(versions: seq<Version>) {
    forall i :: 0 < i < |versions| ==> OneKey(versions[i - 1].rows, versions[i])
  }

  ghost predicate OneKey(before: map<Key, Value>, version: Version) {
    forall k :: k != version.key ==> SameRow(before, version.rows, k)
  }

  predicate SameRow(a: map<Key, Value>, b: map<Key, Value>, k: Key) {
    (k in a <==> k in b) && (k in a ==> a[k] == b[k])
  }

  ghost predicate Good(w: World, k: Key, x: Sample) {
    Explained(w.schema, w.versions, k, x) && ReadUntil(x, w.now)
  }

  /** Read within the age that the rank of k allows, before time t. */
  ghost predicate Recent(w: World, k: Key, x: Sample, t: int) {
    ReadSince(x, t - w.Age(k)) && x.at >= t
  }

  ghost predicate EntryGood(w: World, k: Key) {
    k in w.cache ==>
      && Good(w, k, w.cache[k].x) && w.cache[k].filledAt <= w.now
      && Recent(w, k, w.cache[k].x, w.cache[k].filledAt - w.patience)
  }

  ghost predicate OwnGood(w: World, started: nat, h: Held) {
    Good(w, h.k, h.x) && Recent(w, h.k, h.x, started)
  }

  ghost predicate SeenGood(w: World, started: nat, h: Held) {
    Good(w, h.k, h.x) && ReadSince(h.x, started - w.Age(h.k) - SETTING_CACHE_TIMEOUT - w.patience)
  }

  ghost predicate AbsentGood(w: World, started: nat, a: (Key, nat, nat)) {
    && InForce(w.versions, a.1, a.2) && a.0 !in w.versions[a.1].rows && started <= a.2 <= w.now
  }

  ghost predicate ProcessGood(w: World, q: Process) {
    match q
    case Idle => true
    case Working(started, own, seen, absent) =>
      && started <= w.now <= started + w.patience
      && (forall h :: h in own ==> OwnGood(w, started, h))
      && (forall h :: h in seen ==> SeenGood(w, started, h))
      && (forall a :: a in absent ==> AbsentGood(w, started, a))
    case Invalidating(version) => version < |w.versions|
  }

  /** Every write has been followed by its invalidation, or its process is about to carry it out. */
  ghost predicate Followed(w: World) {
    forall i :: 0 < i < |w.versions| ==> i in w.done || exists p :: p in w.procs && w.procs[p] == Invalidating(i)
  }

  ghost predicate Valid(w: World) {
    && w.schema.WellFounded() && Ordered(w.versions, w.now) && OneKeyEach(w.versions)
    && (forall k :: EntryGood(w, k))
    && (forall p :: p in w.procs ==> ProcessGood(w, w.procs[p]))
    && Followed(w)
  }

  /** Nothing cached, nothing under way, one version. */
  ghost predicate Initial(w: World) {
    w.schema.WellFounded() && |w.versions| == 1 && w.versions[0].since <= w.now && w.cache == map[] &&
    forall p :: p in w.procs ==> w.procs[p].Idle?
  }

  lemma InitialValid(w: World)
    requires Initial(w)
    ensures Valid(w)
  {
  }

  // ---- samples stay good

  lemma {:induction false} ExplainedStays(s: Schema, versions: seq<Version>, next: Version, k: Key, x: Sample, now: nat)
    requires Explained(s, versions, k, x) && ReadUntil(x, now) && next.since == now
    ensures Explained(s, versions + [next], k, x)
    decreases x
  {
    forall i | 0 <= i < |x.inputs| ensures Explained(s, versions + [next], s.Needs(k)[i], x.inputs[i]) {
      ExplainedStays(s, versions, next, s.Needs(k)[i], x.inputs[i], now);
    }
    assert (versions + [next])[x.version] == versions[x.version];
    if x.version + 1 < |versions| {
      assert (versions + [next])[x.version + 1] == versions[x.version + 1];
    }
  }

  lemma {:induction false} ReadUntilLater(x: Sample, t: nat, t': nat)
    requires ReadUntil(x, t) && t <= t'
    ensures ReadUntil(x, t')
    decreases x
  {
    forall i | 0 <= i < |x.inputs| ensures ReadUntil(x.inputs[i], t') {
      ReadUntilLater(x.inputs[i], t, t');
    }
  }

  lemma {:induction false} ReadSinceEarlier(x: Sample, t: int, t': int)
    requires ReadSince(x, t) && t' <= t
    ensures ReadSince(x, t')
    decreases x
  {
    forall i | 0 <= i < |x.inputs| ensures ReadSince(x.inputs[i], t') {
      ReadSinceEarlier(x.inputs[i], t, t');
    }
  }

  /** The two ways a step moves the frame: time goes on, or a version is added. */
  ghost predicate Onward(w: World, w': World) {
    && w'.schema == w.schema && w'.patience == w.patience && w'.now >= w.now
    && (w'.versions == w.versions || exists v: Version :: v.since == w.now && w'.versions == w.versions + [v])
  }

  lemma NextOnward(w: World, s: Step)
    requires w.versions != [] && Enabled(w, s)
    ensures Onward(w, Next(w, s))
  {
    if s.Write? {
      var v := Version(Assigned(w.Rows(), s.k, s.v), w.now, s.k);
      assert Next(w, s).versions == w.versions + [v];
    }
  }

  lemma GoodStays(w: World, w': World, k: Key, x: Sample)
    requires Onward(w, w') && Good(w, k, x)
    ensures Good(w', k, x)
  {
    ReadUntilLater(x, w.now, w'.now);
    if w'.versions != w.versions {
      var v: Version :| v.since == w.now && w'.versions == w.versions + [v];
      ExplainedStays(w.schema, w.versions, v, k, x, w.now);
    }
  }

  lemma EntryStays(w: World, w': World, k: Key)
    requires Onward(w, w') && EntryGood(w, k) && (k in w'.cache ==> k in w.cache && w'.cache[k] == w.cache[k])
    ensures EntryGood(w', k)
  {
    if k in w'.cache {
      GoodStays(w, w', k, w.cache[k].x);
      assert w'.Age(k) == w.Age(k);
    }
  }

  lemma AbsentStays(w: World, w': World, started: nat, a: (Key, nat, nat))
    requires Onward(w, w') && AbsentGood(w, started, a)
    ensures AbsentGood(w', started, a)
  {
    if w'.versions != w.versions {
      var v: Version :| v.since == w.now && w'.versions == w.versions + [v];
      assert w'.versions[a.1] == w.versions[a.1];
      assert a.1 + 1 < |w.versions| ==> w'.versions[a.1 + 1] == w.versions[a.1 + 1];
    }
  }

  lemma ProcessStays(w: World, w': World, q: Process)
    requires Onward(w, w') && ProcessGood(w, q) && (q.Working? ==> w'.now <= q.started + w.patience)
    ensures ProcessGood(w', q)
  {
    if q.Working? {
      forall h | h in q.own ensures OwnGood(w', q.started, h) {
        GoodStays(w, w', h.k, h.x);
        assert w'.Age(h.k) == w.Age(h.k);
      }
      forall h | h in q.seen ensures SeenGood(w', q.started, h) {
        GoodStays(w, w', h.k, h.x);
        assert w'.Age(h.k) == w.Age(h.k);
      }
      forall a | a in q.absent ensures AbsentGood(w', q.started, a) {
        AbsentStays(w, w', q.started, a);
      }
    }
  }

  // ---- what a process reads, computes and stores is good

  lemma {:induction false} MoreTimes(a: nat, b: nat, unit: nat)
    requires a < b
    ensures Times(a, unit) + unit <= Times(b, unit)
    decreases b
  {
    if a + 1 < b {
      MoreTimes(a, b - 1, unit);
    }
  }

  lemma AgeOfInput(w: World, k: Key, r: Key)
    requires w.schema.WellFounded() && k in w.schema.presets && r in w.schema.Needs(k)
    ensures w.Age(r) + SETTING_CACHE_TIMEOUT + w.patience <= w.Age(k)
  {
    MoreTimes(w.schema.rank[r], w.schema.rank[k], SETTING_CACHE_TIMEOUT + w.patience);
  }

  lemma HitGood(w: World, p: Pid, k: Key)
    requires Valid(w) && Enabled(w, Reuse(p, k))
    ensures SeenGood(w, w.procs[p].started, Held(k, w.cache[k].x))
  {
    assert ProcessGood(w, w.procs[p]) && EntryGood(w, k);
    HitRecent(w, w.procs[p].started, k);
  }

  lemma HitRecent(w: World, started: nat, k: Key)
    requires EntryGood(w, k) && w.Live(k) && started <= w.now
    ensures SeenGood(w, started, Held(k, w.cache[k].x))
  {
    var age, entry := w.Age(k), w.cache[k];
    ReadSinceEarlier(entry.x, entry.filledAt - w.patience - age, started - age - SETTING_CACHE_TIMEOUT - w.patience);
  }

  lemma OwnIsSeen(w: World, started: nat, h: Held)
    requires OwnGood(w, started, h)
    ensures SeenGood(w, started, h)
  {
    ReadSinceEarlier(h.x, started - w.Age(h.k), started - w.Age(h.k) - SETTING_CACHE_TIMEOUT - w.patience);
  }

  lemma ReadGood(w: World, p: Pid, k: Key)
    requires Valid(w) && Enabled(w, ReadRow(p, k))
    ensures k in w.Rows() ==> OwnGood(w, w.procs[p].started, Held(k, Sample(Some(w.Rows()[k]), w.Last(), w.now, [])))
    ensures k !in w.Rows() ==> AbsentGood(w, w.procs[p].started, (k, w.Last(), w.now))
  {
    assert ProcessGood(w, w.procs[p]);
  }

  lemma DefaultGood(w: World, p: Pid, k: Key, version: nat, at: nat)
    requires Valid(w) && Enabled(w, TakeDefault(p, k, version, at))
    ensures OwnGood(w, w.procs[p].started, Held(k, Sample(w.schema.presets[k].v, version, at, [])))
  {
    assert ProcessGood(w, w.procs[p]);
    assert AbsentGood(w, w.procs[p].started, (k, version, at));
  }

  lemma ComputedGood(w: World, p: Pid, k: Key, version: nat, at: nat, inputs: seq<Sample>)
    requires Valid(w) && Enabled(w, Compute(p, k, version, at, inputs))
    ensures OwnGood(w, w.procs[p].started,
                    Held(k, Sample(w.schema.presets[k].f(ValuesOf(inputs)), version, at, inputs)))
  {
    var started, since := w.procs[p].started, w.procs[p].started - w.Age(k);
    assert ProcessGood(w, w.procs[p]);
    InputsGood(w, started, k, inputs, since);
    assert AbsentGood(w, started, (k, version, at));
    OwnComputed(w, started, k, Sample(w.schema.presets[k].f(ValuesOf(inputs)), version, at, inputs), since);
  }

  ghost predicate InputsExplained(s: Schema, versions: seq<Version>, k: Key, inputs: seq<Sample>) {
    && |inputs| == |s.Needs(k)|
    && forall i {:trigger Explained(s, versions, s.Needs(k)[i], inputs[i])} ::
         0 <= i < |inputs| ==> Explained(s, versions, s.Needs(k)[i], inputs[i])
  }

  ghost predicate InputsRead(inputs: seq<Sample>, since: int, until: nat) {
    forall i {:trigger ReadUntil(inputs[i], until)} {:trigger ReadSince(inputs[i], since)} ::
      0 <= i < |inputs| ==> ReadUntil(inputs[i], until) && ReadSince(inputs[i], since)
  }

  lemma InputsGood(w: World, started: nat, k: Key, inputs: seq<Sample>, since: int)
    requires w.schema.WellFounded() && k in w.schema.presets && |inputs| == |w.schema.Needs(k)|
    requires forall i :: 0 <= i < |inputs| ==> SeenGood(w, started, Held(w.schema.Needs(k)[i], inputs[i]))
    requires since == started - w.Age(k)
    ensures InputsExplained(w.schema, w.versions, k, inputs) && InputsRead(inputs, since, w.now)
  {
    forall i | 0 <= i < |inputs|
      ensures Good(w, w.schema.Needs(k)[i], inputs[i]) && ReadSince(inputs[i], since)
    {
      InputGood(w, started, k, w.schema.Needs(k)[i], inputs[i], since);
    }
  }

  lemma ExplainedFrom(s: Schema, versions: seq<Version>, k: Key, x: Sample)
    requires k in s.presets && s.presets[k].Computed? && InForce(versions, x.version, x.at)
    requires k !in versions[x.version].rows && InputsExplained(s, versions, k, x.inputs)
    requires x.v == s.presets[k].f(ValuesOf(x.inputs))
    ensures Explained(s, versions, k, x)
  {
  }

  lemma ReadFrom(x: Sample, since: int, until: nat)
    requires since <= x.at <= until && InputsRead(x.inputs, since, until)
    ensures ReadUntil(x, until) && ReadSince(x, since)
  {
  }

  lemma OwnComputed(w: World, started: nat, k: Key, x: Sample, since: int)
    requires k in w.schema.presets && w.schema.presets[k].Computed? && AbsentGood(w, started, (k, x.version, x.at))
    requires InputsExplained(w.schema, w.versions, k, x.inputs) && x.v == w.schema.presets[k].f(ValuesOf(x.inputs))
    requires InputsRead(x.inputs, since, w.now) && since == started - w.Age(k)
    ensures OwnGood(w, started, Held(k, x))
  {
    ExplainedFrom(w.schema, w.versions, k, x);
    ReadFrom(x, since, w.now);
    OwnFrom(w, started, k, x, since);
  }

  lemma OwnFrom(w: World, started: nat, k: Key, x: Sample, since: int)
    requires Explained(w.schema, w.versions, k, x) && ReadUntil(x, w.now) && ReadSince(x, since)
    requires since == started - w.Age(k) && x.at >= started
    ensures OwnGood(w, started, Held(k, x))
  {
  }

  lemma InputGood(w: World, started: nat, k: Key, r: Key, x: Sample, since: int)
    requires w.schema.WellFounded() && k in w.schema.presets && r in w.schema.Needs(k) &&
             SeenGood(w, started, Held(r, x)) && since == started - w.Age(k)
    ensures Good(w, r, x) && ReadSince(x, since)
  {
    AgeOfInput(w, k, r);
    ReadSinceEarlier(x, started - w.Age(r) - SETTING_CACHE_TIMEOUT - w.patience, since);
  }

  lemma FillGood(w: World, p: Pid, h: Held)
    requires Valid(w) && Enabled(w, Fill(p, h))
    ensures EntryGood(Next(w, Fill(p, h)), h.k)
  {
    var started, w' := w.procs[p].started, Next(w, Fill(p, h));
    assert ProcessGood(w, w.procs[p]);
    assert OwnGood(w, started, h);
    NextOnward(w, Fill(p, h));
    GoodStays(w, w', h.k, h.x);
    ReadSinceEarlier(h.x, started - w.Age(h.k), w.now - w.patience - w.Age(h.k));
  }

  // ---- whole steps

  function ActorOf(s: Step): Option<Pid> {
    if s.Tick? then None else Some(s.p)
  }

  lemma KeepGood(w: World, p: Pid, h: Held)
    requires Valid(w) && Busy(w, p) && OwnGood(w, w.procs[p].started, h)
    ensures ProcessGood(w, Keep(w, p, h).procs[p])
  {
    assert ProcessGood(w, w.procs[p]);
    OwnIsSeen(w, w.procs[p].started, h);
  }

  /** What the acting process has gathered is good in the world as it was. */
  lemma ActorGathers(w: World, s: Step)
    requires Valid(w) && Enabled(w, s) && !s.Tick? && Busy(w, s.p) && !s.Finish?
    ensures s.p in Next(w, s).procs && ProcessGood(w, Next(w, s).procs[s.p])
  {
    assert ProcessGood(w, w.procs[s.p]);
    match s
    case Reuse(p, k) => HitGood(w, p, k);
    case ReadRow(p, k) =>
      ReadGood(w, p, k);
      if k in w.Rows() {
        KeepGood(w, p, Held(k, Sample(Some(w.Rows()[k]), w.Last(), w.now, [])));
      }
    case TakeDefault(p, k, version, at) =>
      DefaultGood(w, p, k, version, at);
      KeepGood(w, p, Held(k, Sample(w.schema.presets[k].v, version, at, [])));
    case Compute(p, k, version, at, inputs) =>
      ComputedGood(w, p, k, version, at, inputs);
      KeepGood(w, p, Held(k, Sample(w.schema.presets[k].f(ValuesOf(inputs)), version, at, inputs)));
    case Fill(p, h) =>
  }

  lemma ActorGood(w: World, s: Step)
    requires Valid(w) && Enabled(w, s) && !s.Tick?
    ensures s.p in Next(w, s).procs && ProcessGood(Next(w, s), Next(w, s).procs[s.p])
  {
    if Busy(w, s.p) && !s.Finish? {
      ActorGathers(w, s);
      NextOnward(w, s);
      ActorWorks(w, s);
      ProcessStays(w, Next(w, s), Next(w, s).procs[s.p]);
    }
  }

  lemma ActorWorks(w: World, s: Step)
    requires w.versions != [] && Enabled(w, s) && !s.Tick? && Busy(w, s.p) && !s.Finish?
    ensures Next(w, s).now == w.now && s.p in Next(w, s).procs && Next(w, s).procs[s.p].Working?
    ensures Next(w, s).procs[s.p].started == w.procs[s.p].started
  {
  }

  lemma OthersGood(w: World, s: Step, p: Pid)
    requires Valid(w) && Enabled(w, s) && p in w.procs && ActorOf(s) != Some(p)
    ensures Next(w, s).procs[p] == w.procs[p] && ProcessGood(Next(w, s), w.procs[p])
  {
    NextOnward(w, s);
    assert ProcessGood(w, w.procs[p]);
    if s.Tick? && w.procs[p].Working? {
      assert Busy(w, p);
    }
    ProcessStays(w, Next(w, s), w.procs[p]);
  }

  lemma EntriesGood(w: World, s: Step, k: Key)
    requires Valid(w) && Enabled(w, s)
    ensures EntryGood(Next(w, s), k)
  {
    NextOnward(w, s);
    if s.Fill? && s.h.k == k {
      FillGood(w, s.p, s.h);
    } else {
      assert EntryGood(w, k);
      EntryStays(w, Next(w, s), k);
    }
  }

  lemma VersionsOrdered(w: World, s: Step)
    requires Valid(w) && Enabled(w, s)
    ensures Ordered(Next(w, s).versions, Next(w, s).now) && OneKeyEach(Next(w, s).versions)
  {
    if s.Write? {
      var v := Version(Assigned(w.Rows(), s.k, s.v), w.now, s.k);
      assert Next(w, s).versions == w.versions + [v];
      assert OneKey(w.Rows(), v);
    }
  }

  lemma StillFollowed(w: World, s: Step)
    requires Valid(w) && Enabled(w, s)
    ensures Followed(Next(w, s))
  {
    var w' := Next(w, s);
    forall i | 0 < i < |w'.versions| && i !in w'.done
      ensures exists p :: p in w'.procs && w'.procs[p] == Invalidating(i)
    {
      if i == |w.versions| {
        assert w'.procs[s.p] == Invalidating(i);
      } else {
        var p :| p in w.procs && w.procs[p] == Invalidating(i);
        assert w'.procs[p] == Invalidating(i);
      }
    }
  }

  lemma StepValid(w: World, s: Step)
    requires Valid(w) && Enabled(w, s)
    ensures Valid(Next(w, s))
  {
    var w' := Next(w, s);
    VersionsOrdered(w, s);
    StillFollowed(w, s);
    forall k ensures EntryGood(w', k) {
      EntriesGood(w, s, k);
    }
    forall p | p in w'.procs ensures ProcessGood(w', w'.procs[p]) {
      if ActorOf(s) == Some(p) {
        ActorGood(w, s);
      } else {
        OthersGood(w, s, p);
      }
    }
  }

  lemma {:induction false} RunValid(w: World, steps: seq<Step>)
    requires Valid(w) && Runs(w, steps)
    ensures Valid(After(w, steps)) && After(w, steps).schema == w.schema && After(w, steps).patience == w.patience
    decreases |steps|
  {
    if steps != [] {
      StepValid(w, steps[0]);
      RunValid(Next(w, steps[0]), steps[1..]);
    }
  }

  // ---------------------------------------------------------------- what is served

  /** The entry was computed from versions each of which was the database when it was read; it was cached less than a
      time-out ago; and nothing that went into it is older than one time-out, and the patience, for the setting and for
      each rank below it, nor its own row older than one of them. */
  ghost predicate Traceable(w: World, k: Key) {
    && k in w.cache && Good(w, k, w.cache[k].x)
    && w.cache[k].filledAt <= w.now < w.cache[k].filledAt + SETTING_CACHE_TIMEOUT
    && ReadSince(w.cache[k].x, w.now - w.Age(k) - SETTING_CACHE_TIMEOUT - w.patience + 1)
    && w.cache[k].x.at > w.now - SETTING_CACHE_TIMEOUT - w.patience
  }

  lemma LiveTraceable(w: World, k: Key)
    requires EntryGood(w, k) && w.Live(k)
    ensures Traceable(w, k)
  {
    ReadSinceEarlier(w.cache[k].x, w.cache[k].filledAt - w.patience - w.Age(k),
                     w.now - w.Age(k) - SETTING_CACHE_TIMEOUT - w.patience + 1);
  }

  /** In every run, whatever a process is served can be traced to the database in that way. */
  lemma ServedTraceable(w0: World, steps: seq<Step>, p: Pid, k: Key)
    requires Valid(w0) && Runs(w0, steps) && Enabled(After(w0, steps), Reuse(p, k))
    ensures Traceable(After(w0, steps), k)
  {
    RunValid(w0, steps);
    LiveTraceable(After(w0, steps), k);
  }

  /** A sample that was read in one version throughout is what the setting meant in that version. */
  lemma {:induction false} OneVersion(s: Schema, versions: seq<Version>, k: Key, x: Sample, n: nat)
    requires s.WellFounded() && Explained(s, versions, k, x) && OnlyFrom(x, n)
    ensures x.v == Meaning(s, versions[n].rows, k)
    decreases x
  {
    if x.inputs != [] {
      var needs := s.Needs(k);
      forall i | 0 <= i < |needs| ensures x.inputs[i].v == Meaning(s, versions[n].rows, needs[i]) {
        OneVersion(s, versions, needs[i], x.inputs[i], n);
      }
      MeaningsAre(s, versions[n].rows, needs, s.rank[k], ValuesOf(x.inputs));
    } else if k !in versions[n].rows && s.presets[k].Computed? {
      MeaningsAre(s, versions[n].rows, s.Needs(k), s.rank[k], ValuesOf(x.inputs));
    }
  }

  ghost predicate OnlyFrom(x: Sample, n: nat)
    decreases x
  {
    x.version == n && forall i {:trigger OnlyFrom(x.inputs[i], n)} :: 0 <= i < |x.inputs| ==> OnlyFrom(x.inputs[i], n)
  }

  /** A setting whose default reads no others is served as it was in one version, less than a time-out and the patience
      after that version was read. */
  lemma SimpleServedWasCurrent(w0: World, steps: seq<Step>, p: Pid, k: Key)
    requires Valid(w0) && Runs(w0, steps) && Enabled(After(w0, steps), Reuse(p, k)) && w0.schema.Needs(k) == []
    ensures var w := After(w0, steps);
            var x := w.cache[k].x;
            && k in w.schema.presets && w.schema.WellFounded() && InForce(w.versions, x.version, x.at)
            && x.v == Meaning(w.schema, w.versions[x.version].rows, k)
            && w.now - SETTING_CACHE_TIMEOUT - w.patience < x.at <= w.now
  {
    RunValid(w0, steps);
    var w := After(w0, steps);
    LiveTraceable(w, k);
    OneVersion(w.schema, w.versions, k, w.cache[k].x, w.cache[k].x.version);
  }

  // ---------------------------------------------------------------- once writes stop

  lemma {:induction false} ReadAfterLast(s: Schema, versions: seq<Version>, k: Key, x: Sample, t: int, now: nat)
    requires Ordered(versions, now) && Explained(s, versions, k, x) && ReadSince(x, t) &&
             t > versions[|versions| - 1].since
    ensures OnlyFrom(x, |versions| - 1)
    decreases x
  {
    forall i | 0 <= i < |x.inputs| ensures OnlyFrom(x.inputs[i], |versions| - 1) {
      ReadAfterLast(s, versions, s.Needs(k)[i], x.inputs[i], t, now);
    }
  }

  /** A time-out and the patience, once for the setting and once for each rank below it, after the last write, whatever
      is live agrees with the database; a time-out and the patience will do for a setting whose default reads no
      other. */
  lemma EventuallyCoherent(w0: World, steps: seq<Step>, k: Key)
    requires Valid(w0) && Runs(w0, steps) && After(w0, steps).Live(k)
    ensures var w := After(w0, steps);
            && k in w.schema.presets && w.schema.WellFounded()
            && (LongQuiet(w, k) ==> w.cache[k].x.v == Meaning(w.schema, w.Rows(), k))
  {
    RunValid(w0, steps);
    var w := After(w0, steps);
    LiveTraceable(w, k);
    LongEnough(w, k);
    if Settled(w, k) {
      SettledAgrees(w, k);
    }
  }

  /** The last write was a time-out and the patience ago for each rank up to that of k; or once that, if the default of
      k reads no other setting. */
  ghost predicate LongQuiet(w: World, k: Key)
    requires w.versions != [] && k in w.schema.rank
  {
    var quiet, unit := w.now - w.versions[w.Last()].since, 60 + w.patience;
    quiet >= (w.schema.rank[k] + 1) * unit || (w.schema.Needs(k) == [] && quiet >= unit)
  }

  /** The same, by the age that entries of k can reach. */
  predicate Settled(w: World, k: Key)
    requires w.versions != []
  {
    var unit := SETTING_CACHE_TIMEOUT + w.patience;
    var quiet := w.now - w.versions[w.Last()].since;
    quiet >= unit && (w.schema.Needs(k) == [] || quiet >= w.Age(k) + unit)
  }

  lemma LongEnough(w: World, k: Key)
    requires w.versions != [] && k in w.schema.rank
    ensures Settled(w, k) <==> LongQuiet(w, k)
  {
    var n, unit := w.schema.rank[k], 60 + w.patience;
    TimesIsProduct(n, unit);
    assert (n + 1) * unit == n * unit + unit;
    assert n * unit >= 0;
  }

  lemma SettledAgrees(w: World, k: Key)
    requires w.schema.WellFounded() && Ordered(w.versions, w.now) && Traceable(w, k) && Settled(w, k)
    ensures w.cache[k].x.v == Meaning(w.schema, w.Rows(), k)
  {
    var x := w.cache[k].x;
    if w.schema.Needs(k) == [] {
      SimpleSince(w.schema, w.versions, k, x, x.at);
      AllFromLast(w, k, x, x.at);
    } else {
      AllFromLast(w, k, x, w.now - w.Age(k) - SETTING_CACHE_TIMEOUT - w.patience + 1);
    }
  }

  lemma SimpleSince(s: Schema, versions: seq<Version>, k: Key, x: Sample, t: int)
    requires Explained(s, versions, k, x) && s.Needs(k) == [] && x.at >= t
    ensures x.inputs == [] && ReadSince(x, t)
  {
  }

  lemma AllFromLast(w: World, k: Key, x: Sample, t: int)
    requires w.schema.WellFounded() && Ordered(w.versions, w.now) && Good(w, k, x)
    requires ReadSince(x, t) && t > w.versions[w.Last()].since
    ensures x.v == Meaning(w.schema, w.Rows(), k)
  {
    ReadAfterLast(w.schema, w.versions, k, x, t, w.now);
    OneVersion(w.schema, w.versions, k, x, w.Last());
  }
}
