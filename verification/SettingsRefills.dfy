/** What reads leave in the cache: a preload that is due fills it, and a change refills what it dropped. */
module SettingsRefills {
  import opened Wrappers
  import opened SettingValues
  import opened SettingsCache
  import opened SettingsCoherence

  /** Nothing live is lost, at the same time and over the same rows. */
  ghost predicate Keeps(st: State, st': State) {
    st'.now == st.now && st'.rows == st.rows && forall j :: st.Live(j) ==> st'.Live(j)
  }

  /** A read touches nothing but the cache and the remembered ids. */
  ghost predicate Grows(st: State, st': State) {
    st' == st.(cache := st'.cache, ids := st'.ids) && Keeps(st, st')
  }

  // ---------------------------------------------------------------- reads lose nothing

  lemma {:induction false} LookupKeeps(cfg: Config, st: State, k: Key)
    requires cfg.WellFounded() && k in cfg.fields && RowsReadable(cfg, st.rows)
    ensures Grows(st, Lookup(cfg, st, k).1)
    decreases cfg.rank[k], 3
  {
    FetchKeeps(cfg, st, k);
  }

  lemma {:induction false} FetchKeeps(cfg: Config, st: State, k: Key)
    requires cfg.WellFounded() && k in cfg.fields && RowsReadable(cfg, st.rows)
    ensures Grows(st, Fetch(cfg, st, k).st)
    decreases cfg.rank[k], 2
  {
    if !(cfg.fields[k].ReadsRows() && st.RowsOf(k) != []) {
      DefaultKeeps(cfg, st, k);
    }
  }

  lemma {:induction false} DefaultKeeps(cfg: Config, st: State, k: Key)
    requires cfg.WellFounded() && k in cfg.fields && RowsReadable(cfg, st.rows)
    ensures Grows(st, DefaultValue(cfg, st, k).1)
    decreases cfg.rank[k], 1
  {
    if cfg.fields[k].default.Derived? {
      assert cfg.fields[k].default.needs == cfg.fields[k].Reads();
      ReadAllKeeps(cfg, st, cfg.fields[k].default.needs, cfg.rank[k]);
    }
  }

  lemma {:induction false} ReadAllKeeps(cfg: Config, st: State, ks: seq<Key>, bound: nat)
    requires cfg.WellFounded() && RowsReadable(cfg, st.rows)
    requires forall k :: k in ks ==> k in cfg.fields && cfg.rank[k] < bound
    ensures Grows(st, ReadAll(cfg, st, ks, bound).1)
    decreases bound, 0, |ks|
  {
    if ks != [] {
      LookupKeeps(cfg, st, ks[0]);
      ReadAllKeeps(cfg, Lookup(cfg, st, ks[0]).1, ks[1..], bound);
    }
  }

  lemma {:induction false} GatherKeeps(cfg: Config, g: Gathered, ks: seq<Key>)
    requires cfg.WellFounded() && RowsReadable(cfg, g.st.rows) && forall k :: k in ks ==> k in cfg.fields
    ensures Grows(g.st, Gather(cfg, g, ks).st)
    decreases |ks|
  {
    if ks != [] {
      DefaultKeeps(cfg, g.st, ks[0]);
      GatherKeeps(cfg, GatherOne(cfg, g, ks[0]), ks[1..]);
    }
  }

  lemma StoreAllKeeps(cfg: Config, st: State, values: map<Key, Value>, newIds: map<Key, Option<nat>>)
    requires values.Keys <= cfg.fields.Keys
    ensures var st' := StoreAll(cfg, st, values, newIds);
            Keeps(st, st') && forall k :: k in values ==> st'.Live(k)
  {
  }

  // ---------------------------------------------------------------- the preload

  /** Every setting that is looked up in the database is live. */
  ghost predicate Filled(cfg: Config, st: State) {
    forall k :: k in cfg.fields && (!cfg.fields[k].readOnly || cfg.fields[k].isolated) ==> st.Live(k)
  }

  lemma FillFills(cfg: Config, st: State)
    requires cfg.WellFounded() && RowsReadable(cfg, st.rows)
    ensures var g := Gather(cfg, Gathered(map[], map[], st), cfg.order);
            && g.values.Keys <= cfg.fields.Keys
            && Keeps(st, StoreAll(cfg, g.st, g.values, g.ids)) && Filled(cfg, StoreAll(cfg, g.st, g.values, g.ids))
  {
    var g0 := Gathered(map[], map[], st);
    GatherKeeps(cfg, g0, cfg.order);
    GatheredKeys(cfg, g0, cfg.order);
    var g := Gather(cfg, g0, cfg.order);
    StoreAllKeeps(cfg, g.st, g.values, g.ids);
  }

  /** A preload that neither timer holds back fills the cache, and both timers then hold the next one back for a
      time-out. */
  lemma PreloadFills(cfg: Config, st: State)
    requires cfg.WellFounded() && RowsReadable(cfg, st.rows)
    ensures Keeps(st, Preload(cfg, st))
    ensures !st.LocalLive() && !st.SharedLive() ==>
              && Filled(cfg, Preload(cfg, st))
              && Preload(cfg, st).localExpires == Some(st.now + 60)
              && Preload(cfg, st).sharedExpires == Some(st.now + 60)
    ensures !st.LocalLive() && st.SharedLive() ==> Preload(cfg, st) == st.(localExpires := Some(st.now + 60))
    ensures st.LocalLive() ==> Preload(cfg, st) == st
  {
    var st1 := st.(localExpires := Some(st.now + 60));
    if !st.LocalLive() && !st.SharedLive() {
      FillFills(cfg, st1);
      GatherKeeps(cfg, Gathered(map[], map[], st1), cfg.order);
    }
  }

  // ---------------------------------------------------------------- changes

  lemma {:induction false} GetManyRefills(cfg: Config, st: State, ks: seq<Key>)
    requires Sound(cfg) && Coherent(cfg, st) && forall k :: k in ks ==> k in cfg.fields
    ensures Keeps(st, GetMany(cfg, st, ks)) && forall k :: k in ks ==> GetMany(cfg, st, ks).Live(k)
    decreases |ks|
  {
    if ks != [] {
      PreloadAgrees(cfg, st);
      PreloadFills(cfg, st);
      LookupAgrees(cfg, Preload(cfg, st), ks[0]);
      LookupKeeps(cfg, Preload(cfg, st), ks[0]);
      GetManyRefills(cfg, GetLocal(cfg, st, ks[0]).1, ks[1..]);
    }
  }

  /** The setting that changed and every one whose depends_on names it are live again when the signal has been handled,
      and agree with the rows as they then are. */
  lemma ChangeRefills(cfg: Config, before: State, st: State, z: Key, k: Key)
    requires Sound(cfg) && Covered(cfg) && Coherent(cfg, before)
    requires z in cfg.fields && !cfg.fields[z].readOnly && CleanRows(cfg, st.rows)
    requires SameRowsExcept(before.rows, st.rows, z) && st == before.(rows := st.rows)
    requires k == z || (k in cfg.fields && z in cfg.fields[k].dependsOn)
    ensures var after := HandleSettingChange(cfg, st, z);
            && after.rows == st.rows && after.Live(k)
            && CacheLookup(cfg, after, k) == Hit(Marker(Effective(cfg, st.rows, k)))
  {
    var keys := [z] + Dependents(cfg, z, cfg.order);
    DroppedAgrees(cfg, before, st, z, keys);
    GetManyRefills(cfg, st.(cache := st.cache - set j | j in keys), keys);
    assert k in keys;
    ChangeAgrees(cfg, before, st, z);
    CachedAgrees(cfg, HandleSettingChange(cfg, st, z), k);
  }
}
