/** When the shared cache and the database part ways: fills that were overtaken by a write. */
module CacheRaces {
  import opened Wrappers
  import opened SettingValues
  import opened CacheProcesses

  ghost predicate Agrees(w: World, k: Key)
    requires w.versions != [] && w.schema.WellFounded()
  {
    k in w.cache && k in w.schema.presets && w.cache[k].x.v == Meaning(w.schema, w.Rows(), k)
  }

  /** Live entries agree with the database, except those some process is about to drop. */
  ghost predicate Coherent(w: World)
    requires w.versions != [] && w.schema.WellFounded()
  {
    forall k :: w.Live(k) && !w.Pending(k) ==> Agrees(w, k)
  }

  // ---------------------------------------------------------------- writes that cannot be felt

  ghost function Reach(s: Schema, k: Key): set<Key>
    requires s.WellFounded() && k in s.presets
  {
    {k} + Influence(s, k)
  }

  lemma ReachOfNeed(s: Schema, k: Key, r: Key)
    requires s.WellFounded() && k in s.presets && r in s.Needs(k)
    ensures Reach(s, r) <= Influence(s, k)
  {
  }

  /** A write of a setting that k neither is nor is influenced by does not change what k means. */
  lemma {:induction false} MeaningUnmoved(s: Schema, rows: map<Key, Value>, rows': map<Key, Value>, z: Key, k: Key)
    requires s.WellFounded() && k in s.presets && z !in Reach(s, k)
    requires forall j :: j != z ==> SameRow(rows, rows', j)
    ensures Meaning(s, rows, k) == Meaning(s, rows', k)
    decreases s.rank[k], 1
  {
    assert SameRow(rows, rows', k);
    if k !in rows && s.presets[k].Computed? {
      var needs := s.Needs(k);
      forall r | r in needs ensures z !in Reach(s, r) {
        ReachOfNeed(s, k, r);
      }
      MeaningsUnmoved(s, rows, rows', z, needs, s.rank[k]);
    }
  }

  lemma {:induction false} MeaningsUnmoved(s: Schema, rows: map<Key, Value>, rows': map<Key, Value>, z: Key,
                                           ks: seq<Key>, bound: nat)
    requires s.WellFounded() && forall k :: k in ks ==> k in s.presets && s.rank[k] < bound && z !in Reach(s, k)
    requires forall j :: j != z ==> SameRow(rows, rows', j)
    ensures Meanings(s, rows, ks, bound) == Meanings(s, rows', ks, bound)
    decreases bound, 0, |ks|
  {
    if ks != [] {
      MeaningUnmoved(s, rows, rows', z, ks[0]);
      MeaningsUnmoved(s, rows, rows', z, ks[1..], bound);
    }
  }

  // ---------------------------------------------------------------- values that are out of date

  /** The version whose write gave a setting the row it has in version n, if it has one. */
  ghost function Origin(versions: seq<Version>, n: nat, k: Key): (r: Option<nat>)
    requires n < |versions|
    ensures r.Some? <==> k in versions[n].rows
  {
    if k !in versions[n].rows then None
    else if n == 0 || versions[n].key == k || k !in versions[n - 1].rows then Some(n)
    else Origin(versions, n - 1, k)
  }

  lemma {:induction false} SameOrigin(versions: seq<Version>, m: nat, n: nat, k: Key)
    requires OneKeyEach(versions) && m <= n < |versions| && Origin(versions, m, k) == Origin(versions, n, k)
    ensures SameRow(versions[m].rows, versions[n].rows, k)
  {
    if k in versions[n].rows {
      OriginRow(versions, m, k);
      OriginRow(versions, n, k);
    }
  }

  lemma {:induction false} OriginRow(versions: seq<Version>, n: nat, k: Key)
    requires OneKeyEach(versions) && n < |versions| && k in versions[n].rows
    ensures var o := Origin(versions, n, k).value;
            o <= n && k in versions[o].rows && versions[o].rows[k] == versions[n].rows[k]
  {
    if !(n == 0 || versions[n].key == k || k !in versions[n - 1].rows) {
      assert OneKey(versions[n - 1].rows, versions[n]) && SameRow(versions[n - 1].rows, versions[n].rows, k);
      OriginRow(versions, n - 1, k);
    }
  }

  /** What a sample was made of is no longer there: its setting's row has come, gone or been assigned again since it
      was looked up; or there is none, and an input is out of date.  This speaks of which rows were written when, and
      of no value. */
  ghost predicate Outdated(s: Schema, versions: seq<Version>, k: Key, x: Sample)
    requires versions != []
    decreases x
  {
    x.version >= |versions|
    || Origin(versions, x.version, k) != Origin(versions, |versions| - 1, k)
    || (k !in versions[x.version].rows &&
        exists i {:trigger Outdated(s, versions, s.Needs(k)[i], x.inputs[i])} ::
          0 <= i < |x.inputs| && i < |s.Needs(k)| && Outdated(s, versions, s.Needs(k)[i], x.inputs[i]))
  }

  /** A value that is not out of date is what the setting means now. */
  lemma {:induction false} CurrentAgrees(s: Schema, versions: seq<Version>, k: Key, x: Sample)
    requires s.WellFounded() && versions != [] && OneKeyEach(versions) && Explained(s, versions, k, x)
    requires !Outdated(s, versions, k, x)
    ensures x.v == Meaning(s, versions[|versions| - 1].rows, k)
    decreases x
  {
    SameOrigin(versions, x.version, |versions| - 1, k);
    if k !in versions[x.version].rows && s.presets[k].Computed? {
      var last, needs := versions[|versions| - 1].rows, s.Needs(k);
      forall i | 0 <= i < |needs| ensures x.inputs[i].v == Meaning(s, last, needs[i]) {
        CurrentAgrees(s, versions, needs[i], x.inputs[i]);
      }
      MeaningsAre(s, last, needs, s.rank[k], ValuesOf(x.inputs));
    }
  }

  /** No version after n wrote one of these settings. */
  ghost predicate Quiet(versions: seq<Version>, n: nat, keys: set<Key>) {
    forall i :: n < i < |versions| ==> versions[i].key !in keys
  }

  lemma {:induction false} OriginKept(versions: seq<Version>, k: Key, m: nat)
    requires OneKeyEach(versions) && m < |versions| && Quiet(versions, m, {k})
    ensures Origin(versions, m, k) == Origin(versions, |versions| - 1, k)
    decreases |versions| - m
  {
    if m + 1 < |versions| {
      assert OneKey(versions[m].rows, versions[m + 1]) && versions[m + 1].key != k;
      assert SameRow(versions[m].rows, versions[m + 1].rows, k);
      OriginKept(versions, k, m + 1);
    }
  }

  /** A sample none of whose settings was written after it was read is not out of date, so it is what the setting means
      now. */
  lemma {:induction false} QuietAgrees(s: Schema, versions: seq<Version>, k: Key, x: Sample, n: nat)
    requires s.WellFounded() && versions != [] && OneKeyEach(versions)
    requires Explained(s, versions, k, x) && FromVersion(x, n) && Quiet(versions, n, Reach(s, k))
    ensures !Outdated(s, versions, k, x) && x.v == Meaning(s, versions[|versions| - 1].rows, k)
    decreases x
  {
    OriginKept(versions, k, x.version);
    var needs := s.Needs(k);
    forall i | 0 <= i < |x.inputs| && i < |needs| ensures !Outdated(s, versions, needs[i], x.inputs[i]) {
      ReachOfNeed(s, k, needs[i]);
      QuietAgrees(s, versions, needs[i], x.inputs[i], n);
    }
    CurrentAgrees(s, versions, k, x);
  }

  // ---------------------------------------------------------------- stale fills

  /** A fill of a value that is out of date, which no pending invalidation will remove. */
  ghost predicate OutdatedFill(w: World, s: Step)
    requires w.versions != []
  {
    s.Fill? && !w.Pending(s.h.k) && Outdated(w.schema, w.versions, s.h.k, s.h.x)
  }

  /** One whose value moreover differs from what the setting means by now: with other values written, or other defaults,
      the same events need not show. */
  ghost predicate StaleFill(w: World, s: Step)
    requires w.versions != [] && w.schema.WellFounded()
  {
    OutdatedFill(w, s) && s.h.k in w.schema.presets && s.h.x.v != Meaning(w.schema, w.Rows(), s.h.k)
  }

  /** Some part of the value was read before a write that k depends on, and the invalidation that followed that write
      has been carried out. */
  ghost predicate Overtaken(w: World, h: Held) {
    exists i :: i in w.done && i < |w.versions| && h.k in w.schema.Touched(w.versions[i].key) && !FromVersion(h.x, i)
  }

  lemma {:induction false} FromEarlier(x: Sample, n: nat, m: nat)
    requires FromVersion(x, n) && m <= n
    ensures FromVersion(x, m)
    decreases x
  {
    forall i | 0 <= i < |x.inputs| ensures FromVersion(x.inputs[i], m) {
      FromEarlier(x.inputs[i], n, m);
    }
  }

  lemma {:induction false} FromFirst(x: Sample)
    ensures FromVersion(x, 0)
    decreases x
  {
    forall i | 0 <= i < |x.inputs| ensures FromVersion(x.inputs[i], 0) {
      FromFirst(x.inputs[i]);
    }
  }

  /** The oldest version that went into a sample. */
  lemma OldestVersion(x: Sample) returns (n: nat)
    ensures FromVersion(x, n) && !FromVersion(x, n + 1)
  {
    FromFirst(x);
    n := 0;
    while FromVersion(x, n + 1)
      invariant FromVersion(x, n)
      decreases x.version - n
    {
      n := n + 1;
    }
  }

  lemma TouchedBy(s: Schema, k: Key, z: Key)
    requires s.WellFounded() && s.Covered() && k in s.presets && z in Reach(s, k)
    ensures k in s.Touched(z)
  {
  }

  lemma DoneOrPending(w: World, i: nat, k: Key)
    requires Followed(w) && 0 < i < |w.versions| && k in w.schema.Touched(w.versions[i].key)
    ensures i in w.done || w.Pending(k)
  {
    if i !in w.done {
      var p :| p in w.procs && w.procs[p] == Invalidating(i);
      assert w.procs[p].Invalidating? && w.procs[p].version == i;
    }
  }

  /** A value that is out of date has been overtaken, unless an invalidation is pending. */
  lemma OutdatedMeansOvertaken(w: World, h: Held)
    requires w.schema.WellFounded() && w.schema.Covered() && w.versions != [] && OneKeyEach(w.versions) && Followed(w)
    requires Explained(w.schema, w.versions, h.k, h.x) && Outdated(w.schema, w.versions, h.k, h.x)
    ensures Overtaken(w, h) || w.Pending(h.k)
  {
    var n := OldestVersion(h.x);
    if Quiet(w.versions, n, Reach(w.schema, h.k)) {
      QuietAgrees(w.schema, w.versions, h.k, h.x, n);
      assert false;
    } else {
      var i :| n < i < |w.versions| && w.versions[i].key in Reach(w.schema, h.k);
      TouchedBy(w.schema, h.k, w.versions[i].key);
      DoneOrPending(w, i, h.k);
      LaterThan(h.x, n, i);
    }
  }

  lemma LaterThan(x: Sample, n: nat, i: nat)
    requires !FromVersion(x, n + 1) && n < i
    ensures !FromVersion(x, i)
  {
    if FromVersion(x, i) {
      FromEarlier(x, i, n + 1);
    }
  }

  // ---------------------------------------------------------------- one step

  lemma FillCoherent(w: World, s: Step)
    requires Valid(w) && w.schema.Covered() && Enabled(w, s) && Coherent(w) && s.Fill?
    ensures Coherent(Next(w, s)) <==> !StaleFill(w, s)
  {
    var w', k := Next(w, s), s.h.k;
    assert ProcessGood(w, w.procs[s.p]);
    assert OwnGood(w, w.procs[s.p].started, s.h);
    SamePending(w, s);
    forall j | j != k && w'.Live(j) && !w'.Pending(j) ensures Agrees(w', j) {
      assert w.Live(j);
      assert Agrees(w, j);
    }
    if !Outdated(w.schema, w.versions, k, s.h.x) {
      CurrentAgrees(w.schema, w.versions, k, s.h.x);
    }
    assert w'.Live(k);
  }

  /** Only a write and an invalidation change what is pending. */
  lemma SamePending(w: World, s: Step)
    requires w.versions != [] && Enabled(w, s) && !s.Write? && !s.Invalidate?
    ensures forall k :: Next(w, s).Pending(k) <==> w.Pending(k)
  {
    var w' := Next(w, s);
    forall k ensures w'.Pending(k) <==> w.Pending(k) {
      if w.Pending(k) {
        var p :| p in w.procs && w.procs[p].Invalidating? && w.procs[p].version < |w.versions| &&
                 k in w.schema.Touched(w.versions[w.procs[p].version].key);
        assert w'.procs[p] == w.procs[p];
      }
      if w'.Pending(k) {
        var p :| p in w'.procs && w'.procs[p].Invalidating? && w'.procs[p].version < |w'.versions| &&
                 k in w'.schema.Touched(w'.versions[w'.procs[p].version].key);
        assert w'.procs[p] == w.procs[p];
      }
    }
  }

  lemma WriteCoherent(w: World, s: Step)
    requires Valid(w) && w.schema.Covered() && Enabled(w, s) && Coherent(w) && s.Write?
    ensures Coherent(Next(w, s))
  {
    var w' := Next(w, s);
    VersionsOrdered(w, s);
    assert OneKey(w'.versions[|w.versions| - 1].rows, w'.versions[|w.versions|]);
    assert w'.procs[s.p] == Invalidating(|w.versions|);
    forall k | w'.Live(k) && !w'.Pending(k) ensures Agrees(w', k) {
      if w.Pending(k) {
        StillPending(w, s, k);
      }
      assert Agrees(w, k);
      if s.k in Reach(w.schema, k) {
        TouchedBy(w.schema, k, s.k);
      }
      MeaningUnmoved(w.schema, w.Rows(), w'.Rows(), s.k, k);
    }
  }

  lemma StillPending(w: World, s: Step, k: Key)
    requires w.versions != [] && Enabled(w, s) && s.Write? && w.Pending(k)
    ensures Next(w, s).Pending(k)
  {
    var w' := Next(w, s);
    var p :| p in w.procs && w.procs[p].Invalidating? && w.procs[p].version < |w.versions| &&
             k in w.schema.Touched(w.versions[w.procs[p].version].key);
    assert w'.procs[p] == w.procs[p] && w'.versions[w.procs[p].version] == w.versions[w.procs[p].version];
  }

  lemma InvalidateCoherent(w: World, s: Step)
    requires Valid(w) && Enabled(w, s) && Coherent(w) && s.Invalidate?
    ensures Coherent(Next(w, s))
  {
    var w' := Next(w, s);
    forall k | w'.Live(k) && !w'.Pending(k) ensures Agrees(w', k) {
      assert w.Live(k) && k !in w.schema.Touched(w.versions[w.procs[s.p].version].key);
      if w.Pending(k) {
        PendingElsewhere(w, s, k);
      }
      assert Agrees(w, k);
    }
  }

  lemma PendingElsewhere(w: World, s: Step, k: Key)
    requires w.versions != [] && Enabled(w, s) && s.Invalidate? && w.Pending(k)
    requires k !in w.schema.Touched(w.versions[w.procs[s.p].version].key)
    ensures Next(w, s).Pending(k)
  {
    var p :| p in w.procs && w.procs[p].Invalidating? && w.procs[p].version < |w.versions| &&
             k in w.schema.Touched(w.versions[w.procs[p].version].key);
    assert Next(w, s).procs[p] == w.procs[p];
  }

  lemma OtherCoherent(w: World, s: Step)
    requires Valid(w) && Enabled(w, s) && Coherent(w) && !s.Fill? && !s.Write? && !s.Invalidate?
    ensures Coherent(Next(w, s))
  {
    var w' := Next(w, s);
    SamePending(w, s);
    forall k | w'.Live(k) && !w'.Pending(k) ensures Agrees(w', k) {
      assert w.Live(k);
      assert Agrees(w, k);
    }
  }

  /** Nothing but a fill of a value that is out of date can break coherence; it does exactly when the value differs. */
  lemma StepCoherent(w: World, s: Step)
    requires Valid(w) && w.schema.Covered() && Enabled(w, s) && Coherent(w)
    ensures !OutdatedFill(w, s) ==> Coherent(Next(w, s))
    ensures Coherent(Next(w, s)) <==> !StaleFill(w, s)
  {
    if s.Fill? {
      FillCoherent(w, s);
    } else if s.Write? {
      WriteCoherent(w, s);
    } else if s.Invalidate? {
      InvalidateCoherent(w, s);
    } else {
      OtherCoherent(w, s);
    }
  }

  // ---------------------------------------------------------------- whole runs

  ghost predicate NoOutdatedFill(w: World, steps: seq<Step>)
    requires w.versions != [] && Runs(w, steps)
    decreases |steps|
  {
    steps == [] || (!OutdatedFill(w, steps[0]) && NoOutdatedFill(Next(w, steps[0]), steps[1..]))
  }

  ghost predicate NoStaleFill(w: World, steps: seq<Step>)
    requires w.versions != [] && w.schema.WellFounded() && Runs(w, steps)
    decreases |steps|
  {
    steps == [] || (!StaleFill(w, steps[0]) && NoStaleFill(Next(w, steps[0]), steps[1..]))
  }

  /** No process stores a value of which some part was read before a write that its setting depends on, once the
      invalidation that follows that write has been carried out. */
  ghost predicate NoOvertakenFill(w: World, steps: seq<Step>)
    requires w.versions != [] && Runs(w, steps)
    decreases |steps|
  {
    steps == [] ||
    (!(steps[0].Fill? && Overtaken(w, steps[0].h)) && NoOvertakenFill(Next(w, steps[0]), steps[1..]))
  }

  ghost predicate CoherentThroughout(w: World, steps: seq<Step>)
    requires w.versions != [] && w.schema.WellFounded() && Runs(w, steps)
    decreases |steps|
  {
    Coherent(w) && (steps == [] || CoherentThroughout(Next(w, steps[0]), steps[1..]))
  }

  /** The cache stays coherent, up to pending invalidations, as long as no value that is out of date is stored; with the
      values given, exactly as long as none is stored that differs. */
  lemma {:induction false} CoherentWithoutOutdatedFills(w: World, steps: seq<Step>)
    requires Valid(w) && w.schema.Covered() && Runs(w, steps) && Coherent(w)
    ensures NoOutdatedFill(w, steps) ==> CoherentThroughout(w, steps)
    ensures CoherentThroughout(w, steps) <==> NoStaleFill(w, steps)
    decreases |steps|
  {
    if steps != [] {
      StepCoherent(w, steps[0]);
      StepValid(w, steps[0]);
      if !StaleFill(w, steps[0]) {
        CoherentWithoutOutdatedFills(Next(w, steps[0]), steps[1..]);
      } else {
        assert !Coherent(Next(w, steps[0]));
      }
    }
  }

  /** In particular it does as long as no overtaken value is stored. */
  lemma {:induction false} CoherentUnlessOvertaken(w: World, steps: seq<Step>)
    requires Valid(w) && w.schema.Covered() && Runs(w, steps) && NoOvertakenFill(w, steps)
    ensures NoOutdatedFill(w, steps)
    ensures Coherent(w) ==> CoherentThroughout(w, steps)
    decreases |steps|
  {
    if steps != [] {
      var s := steps[0];
      if s.Fill? && Outdated(w.schema, w.versions, s.h.k, s.h.x) {
        assert ProcessGood(w, w.procs[s.p]) && OwnGood(w, w.procs[s.p].started, s.h);
        OutdatedMeansOvertaken(w, s.h);
      }
      StepValid(w, s);
      CoherentUnlessOvertaken(Next(w, s), steps[1..]);
    }
    if Coherent(w) {
      CoherentWithoutOutdatedFills(w, steps);
    }
  }

  // ---------------------------------------------------------------- joining runs

  lemma RunsCons(w: World, s: Step, rest: seq<Step>)
    requires w.versions != [] && Enabled(w, s) && Runs(Next(w, s), rest)
    ensures Runs(w, [s] + rest) && After(w, [s] + rest) == After(Next(w, s), rest)
  {
    assert ([s] + rest)[1..] == rest;
  }

  lemma {:induction false} RunsAppend(w: World, a: seq<Step>, b: seq<Step>)
    requires w.versions != [] && Runs(w, a) && Runs(After(w, a), b)
    ensures Runs(w, a + b) && After(w, a + b) == After(After(w, a), b)
    decreases |a|
  {
    if a == [] {
      assert a + b == b;
    } else {
      RunsAppend(Next(w, a[0]), a[1..], b);
      assert (a + b)[1..] == a[1..] + b;
    }
  }
}
