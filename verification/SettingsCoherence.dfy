/** The settings cache agrees with the database over whole runs of one process. */
module SettingsCoherence {
  import opened Wrappers
  import opened SettingValues
  import opened SettingsCache

  /** Every encrypted setting that can be assigned also has a default. */
  ghost predicate IdsKnown(cfg: Config) {
    forall k :: k in cfg.fields && cfg.fields[k].encrypted && !cfg.fields[k].readOnly ==>
      !cfg.fields[k].default.NoDefault?
  }

  /** A fill that has no row id to remember: no default and no row. */
  predicate Idless(cfg: Config, st: State, k: Key)
    requires k in cfg.fields
  {
    cfg.fields[k].default.NoDefault? && (!cfg.fields[k].ReadsRows() || st.RowsOf(k) == [])
  }

  /** depends_on names every assignable setting that can influence a default, directly or not. */
  ghost predicate Covered(cfg: Config)
    requires cfg.WellFounded()
  {
    forall k, z :: k in cfg.fields && z in Influences(cfg, k) && z in cfg.fields && !cfg.fields[z].readOnly ==>
      z in cfg.fields[k].dependsOn
  }

  ghost predicate Sound(cfg: Config) {
    cfg.WellFounded() && cfg.CleanDefaults() && IdsKnown(cfg)
  }

  ghost predicate CleanRows(cfg: Config, rows: map<Key, seq<Row>>) {
    RowsReadable(cfg, rows) &&
    forall k :: k in rows && k in cfg.fields ==> forall r :: r in rows[k] ==> cfg.Clean(k, RowValue(cfg, k, r))
  }

  /** The cached form of what a setting means. */
  function Marker(o: Option<Value>): Value {
    if o.None? then NOTSET else GetCacheValue(o.value)
  }

  function PinnedId(st: State, k: Key): Option<nat> {
    if k in st.ids then st.ids[k].id else None
  }

  /** A live entry holds the cached form of the setting's present value, encrypted, where that
      applies, under the id that reads will use for as long as the entry lives. */
  ghost predicate EntryAgrees(cfg: Config, st: State, k: Key)
    requires cfg.WellFounded() && RowsReadable(cfg, st.rows) && k in cfg.fields && k in st.cache
  {
    var m := Marker(Effective(cfg, st.rows, k));
    if !cfg.fields[k].encrypted then st.cache[k].item == Plain(m)
    else
      && st.cache[k].item == EncryptField(PinnedId(st, k), m)
      && (k in st.ids ==> st.cache[k].expires <= st.ids[k].expires)
      && (k !in st.ids ==> cfg.fields[k].readOnly)
  }

  ghost predicate Coherent(cfg: Config, st: State)
    requires cfg.WellFounded()
  {
    && CleanRows(cfg, st.rows)
    && (forall k :: k in cfg.fields && st.Live(k) ==> EntryAgrees(cfg, st, k))
    && (forall k :: k in cfg.fields && k in st.ids ==>
          !cfg.fields[k].readOnly || !Idless(cfg, st, k))
  }

  function Expected(o: Option<Value>): Outcome {
    if o.None? then NotSet else Got(o.value)
  }

  /** Nothing but the cache and the remembered ids differ, and live values are left alone. */
  ghost predicate ReadFrame(cfg: Config, st: State, st': State)
    requires cfg.WellFounded() && RowsReadable(cfg, st.rows)
  {
    && st' == st.(cache := st'.cache, ids := st'.ids)
    && forall j :: j in cfg.fields && st.Live(j) && Effective(cfg, st.rows, j).Some? ==>
         j in st'.cache && st'.cache[j] == st.cache[j]
  }

  // ---------------------------------------------------------------- what settings mean

  lemma {:induction false} EffectiveClean(cfg: Config, rows: map<Key, seq<Row>>, k: Key)
    requires Sound(cfg) && k in cfg.fields && CleanRows(cfg, rows)
    ensures Effective(cfg, rows, k).Some? ==> cfg.Clean(k, Effective(cfg, rows, k).value)
  {
    if cfg.fields[k].ReadsRows() && k in rows && rows[k] != [] {
      assert rows[k][0] in rows[k];
    } else {
      assert cfg.CleanDefault(k);
    }
  }

  lemma MarkerRoundTrip(cfg: Config, k: Key, o: Option<Value>)
    requires k in cfg.fields && (o.Some? ==> cfg.Clean(k, o.value))
    ensures Decode(Marker(o)) == o
    ensures cfg.fields[k].encrypted ==> forall id :: DecryptField(id, EncryptField(id, Marker(o))) == Some(Marker(o))
  {
    assert ENCRYPTED_PREFIX[0] != NOTSET.text[0];
    assert !LooksEncrypted(NOTSET);
  }

  lemma CachedAgrees(cfg: Config, st: State, k: Key)
    requires Sound(cfg) && Coherent(cfg, st) && k in cfg.fields && st.Live(k)
    ensures CacheLookup(cfg, st, k) == Hit(Marker(Effective(cfg, st.rows, k)))
  {
    EffectiveClean(cfg, st.rows, k);
    MarkerRoundTrip(cfg, k, Effective(cfg, st.rows, k));
  }

  // ---------------------------------------------------------------- reads

  /** Caching a setting's present value keeps the cache coherent, given the id that belongs to it. */
  lemma FillKeepsCoherence(cfg: Config, st: State, k: Key, id: Option<Option<nat>>)
    requires Sound(cfg) && Coherent(cfg, st) && k in cfg.fields
    requires cfg.fields[k].encrypted ==> (id.None? <==> Idless(cfg, st, k))
    ensures Coherent(cfg, CacheSet(cfg, RememberId(st, k, if cfg.fields[k].encrypted then id else None), k,
                                   Marker(Effective(cfg, st.rows, k))))
  {
    var id' := if cfg.fields[k].encrypted then id else None;
    var st1 := RememberId(st, k, id');
    var st2 := CacheSet(cfg, st1, k, Marker(Effective(cfg, st.rows, k)));
    assert EntryAgrees(cfg, st2, k);
    forall j | j in cfg.fields && st2.Live(j) ensures EntryAgrees(cfg, st2, j) {
      if j != k {
        assert EntryAgrees(cfg, st, j);
      }
    }
  }

  lemma {:induction false} ReadAllAgrees(cfg: Config, st: State, ks: seq<Key>, bound: nat)
    requires Sound(cfg) && Coherent(cfg, st)
    requires forall k :: k in ks ==> k in cfg.fields && cfg.rank[k] < bound
    ensures var r := ReadAll(cfg, st, ks, bound);
            r.0 == EffectiveAll(cfg, st.rows, ks, bound) && Coherent(cfg, r.1) && ReadFrame(cfg, st, r.1)
    decreases bound, 0, |ks|
  {
    if ks == [] {
    } else {
      LookupAgrees(cfg, st, ks[0]);
      var st1 := Lookup(cfg, st, ks[0]).1;
      ReadAllAgrees(cfg, st1, ks[1..], bound);
    }
  }

  lemma {:induction false} FetchAgrees(cfg: Config, st: State, k: Key)
    requires Sound(cfg) && Coherent(cfg, st) && k in cfg.fields
    ensures var r := Fetch(cfg, st, k);
            && r.value == (if Effective(cfg, st.rows, k).None? then NOTSET else Effective(cfg, st.rows, k).value)
            && Coherent(cfg, r.st) && ReadFrame(cfg, st, r.st)
            && (cfg.fields[k].encrypted ==> (r.id.None? <==> Idless(cfg, st, k)))
            && (!cfg.fields[k].encrypted ==> r.id.None?)
    decreases cfg.rank[k], 2
  {
    match cfg.fields[k].default
    case NoDefault =>
    case Const(v) =>
    case Derived(needs, f) =>
      assert needs == cfg.fields[k].Reads();
      ReadAllAgrees(cfg, st, needs, cfg.rank[k]);
  }

  /** A read returns exactly "first row, else default", from the cache or past it. */
  lemma {:induction false} LookupAgrees(cfg: Config, st: State, k: Key)
    requires Sound(cfg) && Coherent(cfg, st) && k in cfg.fields
    ensures var r := Lookup(cfg, st, k);
            && r.0 == Expected(Effective(cfg, st.rows, k))
            && Coherent(cfg, r.1) && ReadFrame(cfg, st, r.1) && r.1.Live(k)
    decreases cfg.rank[k], 3
  {
    var o := Effective(cfg, st.rows, k);
    EffectiveClean(cfg, st.rows, k);
    MarkerRoundTrip(cfg, k, o);
    if st.Live(k) {
      CachedAgrees(cfg, st, k);
    }
    if !(st.Live(k) && o.Some?) {
      FetchAgrees(cfg, st, k);
      FetchedFillAgrees(cfg, st, k);
    }
  }

  /** The second half of a read, for a setting the cache does not answer. */
  lemma FetchedFillAgrees(cfg: Config, st: State, k: Key)
    requires Sound(cfg) && Coherent(cfg, st) && k in cfg.fields
    requires st.Live(k) ==> Effective(cfg, st.rows, k).None? && CacheLookup(cfg, st, k) == Hit(NOTSET)
    requires var r := Fetch(cfg, st, k);
             && r.value == (if Effective(cfg, st.rows, k).None? then NOTSET else Effective(cfg, st.rows, k).value)
             && Coherent(cfg, r.st) && ReadFrame(cfg, st, r.st)
             && (cfg.fields[k].encrypted ==> (r.id.None? <==> Idless(cfg, st, k)))
             && (!cfg.fields[k].encrypted ==> r.id.None?)
    requires st.Live(k) ==> Fetch(cfg, st, k).st.Live(k)
    requires Effective(cfg, st.rows, k).Some? ==>
               cfg.Clean(k, Effective(cfg, st.rows, k).value)
    ensures var r := Lookup(cfg, st, k);
            && r.0 == Expected(Effective(cfg, st.rows, k))
            && Coherent(cfg, r.1) && ReadFrame(cfg, st, r.1) && r.1.Live(k)
  {
    var o := Effective(cfg, st.rows, k);
    var fetched := Fetch(cfg, st, k);
    FillKeepsCoherence(cfg, fetched.st, k, fetched.id);
    FillFrame(cfg, st, fetched.st, k, fetched.id, Marker(o));
    FetchedLookup(cfg, st, k, o);
  }

  lemma FetchedLookup(cfg: Config, st: State, k: Key, o: Option<Value>)
    requires cfg.WellFounded() && k in cfg.fields && RowsReadable(cfg, st.rows) && (o.Some? ==> cfg.Clean(k, o.value))
    requires st.Live(k) ==> o.None? && CacheLookup(cfg, st, k) == Hit(NOTSET)
    requires Fetch(cfg, st, k).value == if o.None? then NOTSET else o.value
    ensures var r, fetched := Lookup(cfg, st, k), Fetch(cfg, st, k);
            && r.0 == Expected(o)
            && r.1 == if st.Live(k) then fetched.st
                      else CacheSet(cfg, RememberId(fetched.st, k, fetched.id), k, Marker(o))
  {
    assert GetCacheValue(Fetch(cfg, st, k).value) == Marker(o);
  }

  /** Filling an entry that is not live, or is only the marker, leaves the live values alone. */
  lemma FillFrame(cfg: Config, st: State, st1: State, k: Key, id: Option<Option<nat>>, v: Value)
    requires cfg.WellFounded() && RowsReadable(cfg, st.rows) && k in cfg.fields && ReadFrame(cfg, st, st1)
    requires st.Live(k) ==> Effective(cfg, st.rows, k).None?
    ensures ReadFrame(cfg, st, CacheSet(cfg, RememberId(st1, k, id), k, v))
  {
  }

  // ---------------------------------------------------------------- preloading

  lemma ScanCleanRows(cfg: Config, k: Key, rows: seq<Row>)
    requires k in cfg.fields && forall r :: r in rows ==> RowReadable(cfg, k, r) && cfg.Clean(k, RowValue(cfg, k, r))
    ensures rows == [] ==> ScanRows(cfg, k, rows, None) == Scanned(NOTSET, None)
    ensures rows != [] ==>
              ScanRows(cfg, k, rows, None) ==
              Scanned(GetCacheValue(RowValue(cfg, k, rows[0])),
                      if cfg.fields[k].encrypted then Some(Some(rows[0].id)) else None)
  {
  }

  ghost predicate GatheredAgree(cfg: Config, g: Gathered)
    requires cfg.WellFounded() && RowsReadable(cfg, g.st.rows)
  {
    && (forall k :: k in g.values ==>
          k in cfg.fields && cfg.fields[k].ReadsRows() && g.values[k] == Marker(Effective(cfg, g.st.rows, k)))
    && (forall k :: k in g.ids <==> k in g.values && cfg.fields[k].encrypted && !Idless(cfg, g.st, k))
  }

  lemma PreloadOneAgrees(cfg: Config, st: State, k: Key)
    requires Sound(cfg) && Coherent(cfg, st) && k in cfg.fields && cfg.fields[k].ReadsRows()
    ensures var r := PreloadOne(cfg, st, k);
            && r.value == Marker(Effective(cfg, st.rows, k))
            && (r.id.Some? <==> cfg.fields[k].encrypted && !Idless(cfg, st, k))
            && Coherent(cfg, r.st) && ReadFrame(cfg, st, r.st)
  {
    ScanCleanRows(cfg, k, st.RowsOf(k));
    match cfg.fields[k].default
    case NoDefault =>
    case Const(v) =>
    case Derived(needs, f) =>
      assert needs == cfg.fields[k].Reads();
      ReadAllAgrees(cfg, st, needs, cfg.rank[k]);
  }

  lemma {:induction false} GatherAgrees(cfg: Config, g: Gathered, ks: seq<Key>)
    requires Sound(cfg) && Coherent(cfg, g.st) && GatheredAgree(cfg, g)
    requires forall k :: k in ks ==> k in cfg.fields
    ensures var r := Gather(cfg, g, ks);
            Coherent(cfg, r.st) && ReadFrame(cfg, g.st, r.st) && GatheredAgree(cfg, r)
    decreases |ks|
  {
    if ks == [] {
    } else {
      GatherOneAgrees(cfg, g, ks[0]);
      GatherAgrees(cfg, GatherOne(cfg, g, ks[0]), ks[1..]);
    }
  }

  lemma GatherOneAgrees(cfg: Config, g: Gathered, k: Key)
    requires Sound(cfg) && Coherent(cfg, g.st) && GatheredAgree(cfg, g) && k in cfg.fields
    ensures var r := GatherOne(cfg, g, k);
            Coherent(cfg, r.st) && ReadFrame(cfg, g.st, r.st) && GatheredAgree(cfg, r)
  {
    if cfg.fields[k].ReadsRows() {
      PreloadOneAgrees(cfg, g.st, k);
      AddGathered(cfg, g, k, PreloadOne(cfg, g.st, k));
    }
  }

  lemma AddGathered(cfg: Config, g: Gathered, k: Key, one: Fetched)
    requires cfg.WellFounded() && RowsReadable(cfg, g.st.rows) && GatheredAgree(cfg, g)
    requires k in cfg.fields && cfg.fields[k].ReadsRows() && one.st.rows == g.st.rows
    requires one.value == Marker(Effective(cfg, g.st.rows, k))
    requires one.id.Some? <==> cfg.fields[k].encrypted && !Idless(cfg, g.st, k)
    ensures GatheredAgree(cfg, Gathered(g.values[k := one.value],
                                        if one.id.None? then g.ids else g.ids[k := one.id.value], one.st))
  {
  }

  lemma StoreAllAgrees(cfg: Config, g: Gathered)
    requires Sound(cfg) && Coherent(cfg, g.st) && GatheredAgree(cfg, g)
    ensures Coherent(cfg, StoreAll(cfg, g.st, g.values, g.ids))
  {
    var st := StoreAll(cfg, g.st, g.values, g.ids);
    forall k | k in cfg.fields && st.Live(k) ensures EntryAgrees(cfg, st, k) {
      StoredEntryAgrees(cfg, g, k);
    }
  }

  lemma StoredEntryAgrees(cfg: Config, g: Gathered, k: Key)
    requires Sound(cfg) && Coherent(cfg, g.st) && GatheredAgree(cfg, g)
    requires k in cfg.fields && StoreAll(cfg, g.st, g.values, g.ids).Live(k)
    ensures EntryAgrees(cfg, StoreAll(cfg, g.st, g.values, g.ids), k)
  {
    if k in g.values {
      FreshEntryAgrees(cfg, g, k);
    } else {
      assert EntryAgrees(cfg, g.st, k);
    }
  }

  /** An entry just stored, under the id just stored for it. */
  lemma FreshEntryAgrees(cfg: Config, g: Gathered, k: Key)
    requires cfg.WellFounded() && RowsReadable(cfg, g.st.rows) && GatheredAgree(cfg, g)
    requires k in cfg.fields && k in g.values
    requires cfg.fields[k].encrypted ==> IdsKnown(cfg)
    requires k in g.st.ids ==> !cfg.fields[k].readOnly || !Idless(cfg, g.st, k)
    ensures EntryAgrees(cfg, StoreAll(cfg, g.st, g.values, g.ids), k)
  {
    StoredAs(cfg, g, k);
    if cfg.fields[k].encrypted {
      FreshId(cfg, g, k);
    }
  }

  lemma StoredAs(cfg: Config, g: Gathered, k: Key)
    requires cfg.WellFounded() && RowsReadable(cfg, g.st.rows) && GatheredAgree(cfg, g)
    requires k in cfg.fields && k in g.values
    ensures var st, withIds := StoreAll(cfg, g.st, g.values, g.ids), StoreIds(g.st, g.ids);
            && k in st.cache && st.cache[k] == EntryFor(cfg, withIds, k, g.values[k])
            && st.ids == withIds.ids && st.rows == g.st.rows && withIds.rows == g.st.rows && withIds.now == g.st.now
  {
  }

  lemma FreshId(cfg: Config, g: Gathered, k: Key)
    requires cfg.WellFounded() && RowsReadable(cfg, g.st.rows) && GatheredAgree(cfg, g) && IdsKnown(cfg)
    requires k in cfg.fields && k in g.values && cfg.fields[k].encrypted
    requires k in g.st.ids ==> !cfg.fields[k].readOnly || !Idless(cfg, g.st, k)
    ensures var st := StoreIds(g.st, g.ids);
            && LookupId(cfg, st, k) == PinnedId(st, k)
            && (k in st.ids ==> g.st.now + SETTING_CACHE_TIMEOUT <= st.ids[k].expires)
            && (k !in st.ids ==> cfg.fields[k].readOnly)
  {
    if k !in g.ids {
      assert Idless(cfg, g.st, k) && cfg.fields[k].readOnly;
    }
  }

  lemma PreloadAgrees(cfg: Config, st: State)
    requires Sound(cfg) && Coherent(cfg, st)
    ensures Coherent(cfg, Preload(cfg, st))
    ensures Preload(cfg, st).LocalLive() && Preload(cfg, st).now == st.now && Preload(cfg, st).nextId == st.nextId
  {
    if !st.LocalLive() {
      TimerAgrees(cfg, st);
      var st1 := st.(localExpires := Some(st.now + SETTING_CACHE_TIMEOUT));
      if !st1.SharedLive() {
        var g0 := Gathered(map[], map[], st1);
        assert GatheredAgree(cfg, g0);
        GatherAgrees(cfg, g0, cfg.order);
        GatheredKeys(cfg, g0, cfg.order);
        StoreAllAgrees(cfg, Gather(cfg, g0, cfg.order));
      }
    }
  }

  lemma TimerAgrees(cfg: Config, st: State)
    requires Sound(cfg) && Coherent(cfg, st)
    ensures Coherent(cfg, st.(localExpires := Some(st.now + SETTING_CACHE_TIMEOUT)))
  {
    var st1 := st.(localExpires := Some(st.now + SETTING_CACHE_TIMEOUT));
    forall k | k in cfg.fields && st1.Live(k) ensures EntryAgrees(cfg, st1, k) {
      assert EntryAgrees(cfg, st, k);
    }
  }

  lemma GetLocalAgrees(cfg: Config, st: State, k: Key)
    requires Sound(cfg) && Coherent(cfg, st) && k in cfg.fields
    ensures GetLocal(cfg, st, k).0 == Expected(Effective(cfg, st.rows, k))
    ensures Coherent(cfg, GetLocal(cfg, st, k).1)
  {
    PreloadAgrees(cfg, st);
    LookupAgrees(cfg, Preload(cfg, st), k);
  }

  // ---------------------------------------------------------------- writes

  ghost predicate SameRowsExcept(rows: map<Key, seq<Row>>, rows': map<Key, seq<Row>>, z: Key) {
    forall k :: k != z ==> (k in rows <==> k in rows') && (k in rows ==> rows[k] == rows'[k])
  }

  /** A change of z's rows cannot be felt by a setting z does not influence. */
  lemma {:induction false} EffectiveLocal(cfg: Config, rows: map<Key, seq<Row>>, rows': map<Key, seq<Row>>, z: Key,
                                          k: Key)
    requires cfg.WellFounded() && RowsReadable(cfg, rows) && RowsReadable(cfg, rows')
    requires k in cfg.fields && k != z && z !in Influences(cfg, k) && SameRowsExcept(rows, rows', z)
    ensures Effective(cfg, rows, k) == Effective(cfg, rows', k)
    decreases cfg.rank[k], 1
  {
    if cfg.fields[k].default.Derived? {
      var needs := cfg.fields[k].Reads();
      forall r | r in needs ensures r != z && z !in Influences(cfg, r) {
        assert r in {r} + Influences(cfg, r);
      }
      EffectiveAllLocal(cfg, rows, rows', z, needs, cfg.rank[k]);
    }
  }

  lemma {:induction false} EffectiveAllLocal(cfg: Config, rows: map<Key, seq<Row>>, rows': map<Key, seq<Row>>, z: Key,
                                             ks: seq<Key>, bound: nat)
    requires cfg.WellFounded() && RowsReadable(cfg, rows) && RowsReadable(cfg, rows')
    requires forall k :: k in ks ==>
               k in cfg.fields && cfg.rank[k] < bound && k != z && z !in Influences(cfg, k)
    requires SameRowsExcept(rows, rows', z)
    ensures EffectiveAll(cfg, rows, ks, bound) == EffectiveAll(cfg, rows', ks, bound)
    decreases bound, 0, |ks|
  {
    if ks == [] {
    } else {
      EffectiveLocal(cfg, rows, rows', z, ks[0]);
      assert forall k :: k in ks[1..] ==> k in ks;
      EffectiveAllLocal(cfg, rows, rows', z, ks[1..], bound);
    }
  }

  lemma {:induction false} GetManyAgrees(cfg: Config, st: State, ks: seq<Key>)
    requires Sound(cfg) && Coherent(cfg, st) && forall k :: k in ks ==> k in cfg.fields
    ensures Coherent(cfg, GetMany(cfg, st, ks))
    decreases |ks|
  {
    if ks == [] {
    } else {
      GetLocalAgrees(cfg, st, ks[0]);
      GetManyAgrees(cfg, GetLocal(cfg, st, ks[0]).1, ks[1..]);
    }
  }

  /** Dropping the changed setting and its direct dependents is enough when depends_on is complete. */
  lemma ChangeAgrees(cfg: Config, before: State, st: State, z: Key)
    requires Sound(cfg) && Covered(cfg) && Coherent(cfg, before)
    requires z in cfg.fields && !cfg.fields[z].readOnly && CleanRows(cfg, st.rows)
    requires SameRowsExcept(before.rows, st.rows, z)
    requires st == before.(rows := st.rows)
    ensures Coherent(cfg, HandleSettingChange(cfg, st, z))
  {
    var keys := [z] + Dependents(cfg, z, cfg.order);
    DroppedAgrees(cfg, before, st, z, keys);
    GetManyAgrees(cfg, st.(cache := st.cache - set k | k in keys), keys);
  }

  lemma DroppedAgrees(cfg: Config, before: State, st: State, z: Key, keys: seq<Key>)
    requires Sound(cfg) && Covered(cfg) && Coherent(cfg, before)
    requires z in cfg.fields && !cfg.fields[z].readOnly && CleanRows(cfg, st.rows)
    requires SameRowsExcept(before.rows, st.rows, z)
    requires st == before.(rows := st.rows) && keys == [z] + Dependents(cfg, z, cfg.order)
    ensures Coherent(cfg, st.(cache := st.cache - set k | k in keys))
  {
    var st1 := st.(cache := st.cache - set k | k in keys);
    forall k | k in cfg.fields && st1.Live(k) ensures EntryAgrees(cfg, st1, k) {
      assert k !in keys && before.Live(k);
      assert z !in cfg.fields[k].dependsOn;
      UntouchedAgrees(cfg, before, st1, z, k);
    }
  }

  lemma UntouchedAgrees(cfg: Config, before: State, st: State, z: Key, k: Key)
    requires cfg.WellFounded() && RowsReadable(cfg, before.rows) && RowsReadable(cfg, st.rows)
    requires k in cfg.fields && k != z && z !in Influences(cfg, k) && SameRowsExcept(before.rows, st.rows, z)
    requires k in before.cache && EntryAgrees(cfg, before, k)
    requires k in st.cache && st.cache[k] == before.cache[k] && st.ids == before.ids
    ensures EntryAgrees(cfg, st, k)
  {
    EffectiveLocal(cfg, before.rows, st.rows, z, k);
  }

  /** One save of the first (or only) row, and the change signal that follows it. */
  lemma SaveAgrees(cfg: Config, st: State, k: Key, id: nat, s: Stored)
    requires Sound(cfg) && Covered(cfg) && Coherent(cfg, st)
    requires k in cfg.fields && !cfg.fields[k].readOnly
    requires RowReadable(cfg, k, Row(id, s)) && cfg.Clean(k, RowValue(cfg, k, Row(id, s)))
    ensures Coherent(cfg, SaveRow(cfg, st, k, id, s))
    ensures Effective(cfg, SaveRow(cfg, st, k, id, s).rows, k) == Some(RowValue(cfg, k, Row(id, s)))
  {
    PutFirstClean(cfg, st, k, id, s);
    ChangeAgrees(cfg, st, PutFirst(cfg, st, k, id, s), k);
  }

  lemma PutFirstClean(cfg: Config, st: State, k: Key, id: nat, s: Stored)
    requires cfg.WellFounded() && CleanRows(cfg, st.rows)
    requires k in cfg.fields && !cfg.fields[k].readOnly
    requires RowReadable(cfg, k, Row(id, s)) && cfg.Clean(k, RowValue(cfg, k, Row(id, s)))
    ensures var saved := PutFirst(cfg, st, k, id, s);
            && saved == st.(rows := saved.rows) && CleanRows(cfg, saved.rows) && SameRowsExcept(st.rows, saved.rows, k)
            && Effective(cfg, saved.rows, k) == Some(RowValue(cfg, k, Row(id, s)))
  {
    var saved := PutFirst(cfg, st, k, id, s);
    forall r | r in saved.rows[k] ensures cfg.Clean(k, RowValue(cfg, k, r)) {
      assert r == Row(id, s) || r in st.rows[k];
    }
  }

  lemma TakeIdAgrees(cfg: Config, st: State)
    requires Sound(cfg) && Coherent(cfg, st)
    ensures Coherent(cfg, TakeId(st))
  {
    forall k | k in cfg.fields && TakeId(st).Live(k) ensures EntryAgrees(cfg, TakeId(st), k) {
      assert EntryAgrees(cfg, st, k);
    }
  }

  lemma CreateRowAgrees(cfg: Config, st: State, k: Key, v: Value)
    requires Sound(cfg) && Covered(cfg) && Coherent(cfg, st) && k in cfg.fields && cfg.Clean(k, v)
    requires !cfg.fields[k].readOnly
    ensures Coherent(cfg, CreateRow(cfg, st, k, v)) && Effective(cfg, CreateRow(cfg, st, k, v).rows, k) == Some(v)
  {
    TakeIdAgrees(cfg, st);
    var st1 := TakeId(st);
    if cfg.fields[k].encrypted {
      assert !LooksEncrypted(Text(""));
      SaveAgrees(cfg, st1, k, st.nextId, Plain(Text("")));
      st1 := SaveRow(cfg, st1, k, st.nextId, Plain(Text("")));
    }
    SaveAgrees(cfg, st1, k, st.nextId, StoredForm(cfg, k, st.nextId, v));
  }

  /** After an assignment the setting means the value it was given. */
  lemma SetLocalAgrees(cfg: Config, st: State, k: Key, v: Value)
    requires Sound(cfg) && Covered(cfg) && Coherent(cfg, st) && k in cfg.fields && cfg.Clean(k, v)
    requires !cfg.fields[k].readOnly
    ensures SetLocal(cfg, st, k, v).Some? && Coherent(cfg, SetLocal(cfg, st, k, v).value)
    ensures Effective(cfg, SetLocal(cfg, st, k, v).value.rows, k) == Some(v)
  {
    if st.RowsOf(k) == [] {
      CreateRowAgrees(cfg, st, k, v);
    } else {
      var row := st.RowsOf(k)[0];
      assert row in st.rows[k];
      if row.stored != Plain(v) {
        SaveAgrees(cfg, st, k, row.id, StoredForm(cfg, k, row.id, v));
      }
    }
  }

  lemma {:induction false} DeleteRowsAgrees(cfg: Config, st: State, k: Key)
    requires Sound(cfg) && Covered(cfg) && Coherent(cfg, st) && k in cfg.fields && !cfg.fields[k].readOnly
    ensures Coherent(cfg, DeleteRows(cfg, st, k)) && DeleteRows(cfg, st, k).RowsOf(k) == []
    ensures SameRowsExcept(st.rows, DeleteRows(cfg, st, k).rows, k)
    decreases |st.RowsOf(k)|
  {
    if st.RowsOf(k) == [] {
    } else {
      var st1 := st.(rows := st.rows[k := st.RowsOf(k)[1..]]);
      ChangeAgrees(cfg, st, st1, k);
      DeleteRowsAgrees(cfg, HandleSettingChange(cfg, st1, k), k);
    }
  }

  // ---------------------------------------------------------------- runs

  datatype Op = Get(k: Key) | Set(k: Key, v: Value) | Del(k: Key) | Tick(seconds: nat)

  ghost predicate Allowed(cfg: Config, op: Op) {
    match op
    case Get(k) => k in cfg.fields
    case Set(k, v) => k in cfg.fields && cfg.Clean(k, v)
    case Del(k) => k in cfg.fields
    case Tick(_) => true
  }

  function Step(cfg: Config, st: State, op: Op): (r: State)
    requires cfg.WellFounded() && RowsReadable(cfg, st.rows) && Allowed(cfg, op)
    ensures RowsReadable(cfg, r.rows)
  {
    match op
    case Get(k) => GetLocal(cfg, st, k).1
    case Set(k, v) => var r := SetLocal(cfg, st, k, v); if r.None? then st else r.value
    case Del(k) => var r := DelLocal(cfg, st, k); if r.None? then st else r.value
    case Tick(n) => st.(now := st.now + n)
  }

  function Run(cfg: Config, st: State, ops: seq<Op>): (r: State)
    requires cfg.WellFounded() && RowsReadable(cfg, st.rows) && forall op :: op in ops ==> Allowed(cfg, op)
    ensures RowsReadable(cfg, r.rows)
    decreases |ops|
  {
    if ops == [] then st else Run(cfg, Step(cfg, st, ops[0]), ops[1..])
  }

  /** Any database, nothing cached, nothing preloaded. */
  ghost predicate Cold(cfg: Config, st: State) {
    CleanRows(cfg, st.rows) && st.cache == map[] && st.ids == map[] && st.localExpires == None &&
        st.sharedExpires == None
  }

  lemma StepAgrees(cfg: Config, st: State, op: Op)
    requires Sound(cfg) && Covered(cfg) && Coherent(cfg, st) && Allowed(cfg, op)
    ensures Coherent(cfg, Step(cfg, st, op))
  {
    match op
    case Get(k) => GetLocalAgrees(cfg, st, k);
    case Set(k, v) =>
      if !cfg.fields[k].readOnly {
        SetLocalAgrees(cfg, st, k, v);
      }
    case Del(k) =>
      if !cfg.fields[k].readOnly {
        DeleteRowsAgrees(cfg, st, k);
      }
    case Tick(n) => TickAgrees(cfg, st, n);
  }

  lemma TickAgrees(cfg: Config, st: State, n: nat)
    requires Sound(cfg) && Coherent(cfg, st)
    ensures Coherent(cfg, st.(now := st.now + n))
  {
    var st1 := st.(now := st.now + n);
    forall k | k in cfg.fields && st1.Live(k) ensures EntryAgrees(cfg, st1, k) {
      assert EntryAgrees(cfg, st, k);
    }
  }

  lemma {:induction false} RunAgrees(cfg: Config, st: State, ops: seq<Op>)
    requires Sound(cfg) && Covered(cfg) && Coherent(cfg, st) && forall op :: op in ops ==> Allowed(cfg, op)
    ensures Coherent(cfg, Run(cfg, st, ops))
    decreases |ops|
  {
    if ops == [] {
    } else {
      StepAgrees(cfg, st, ops[0]);
      RunAgrees(cfg, Step(cfg, st, ops[0]), ops[1..]);
    }
  }

  /** In every run from a cold cache, each live entry that is not the not-set marker decodes to the
      setting's first row or, without one, its default; an entry that is the marker stands for a
      setting that has neither; and every read returns that same value. */
  lemma CacheAgreesWithDatabase(cfg: Config, st: State, ops: seq<Op>, k: Key)
    requires Sound(cfg) && Covered(cfg) && Cold(cfg, st) && k in cfg.fields
    requires forall op :: op in ops ==> Allowed(cfg, op)
    ensures var now := Run(cfg, st, ops);
            && (now.Live(k) ==> CacheLookup(cfg, now, k).Hit? &&
                                Decode(CacheLookup(cfg, now, k).v) == Effective(cfg, now.rows, k))
            && GetLocal(cfg, now, k).0 == Expected(Effective(cfg, now.rows, k))
  {
    RunAgrees(cfg, st, ops);
    var now := Run(cfg, st, ops);
    GetLocalAgrees(cfg, now, k);
    EffectiveClean(cfg, now.rows, k);
    MarkerRoundTrip(cfg, k, Effective(cfg, now.rows, k));
    if now.Live(k) {
      CachedAgrees(cfg, now, k);
    }
  }

  lemma RunCons(cfg: Config, st: State, op: Op, rest: seq<Op>)
    requires cfg.WellFounded() && RowsReadable(cfg, st.rows) && Allowed(cfg, op) && forall o :: o in rest ==>
             Allowed(cfg, o)
    ensures forall o :: o in [op] + rest ==> Allowed(cfg, o)
    ensures Run(cfg, st, [op] + rest) == Run(cfg, Step(cfg, st, op), rest)
  {
    assert ([op] + rest)[1..] == rest;
  }

  /** A run ends with its last operation. */
  lemma {:induction false} RunEnds(cfg: Config, st: State, ops: seq<Op>, op: Op)
    requires cfg.WellFounded() && RowsReadable(cfg, st.rows) && Allowed(cfg, op) && forall o :: o in ops ==>
             Allowed(cfg, o)
    ensures forall o :: o in ops + [op] ==> Allowed(cfg, o)
    ensures Run(cfg, st, []) == st && Run(cfg, st, ops + [op]) == Step(cfg, Run(cfg, st, ops), op)
    decreases |ops|
  {
    if ops == [] {
      assert [] + [op] == [op] && [op][1..] == [];
    } else {
      assert (ops + [op])[1..] == ops[1..] + [op];
      RunEnds(cfg, Step(cfg, st, ops[0]), ops[1..], op);
    }
  }

  /** Read your writes: whatever happened before and however long ago, an assignment to a setting that
      is not read-only is what the next read returns, and no other setting's rows are touched. */
  lemma ReadYourWrites(cfg: Config, st: State, ops: seq<Op>, k: Key, v: Value)
    requires Sound(cfg) && Covered(cfg) && Cold(cfg, st) && k in cfg.fields && cfg.Clean(k, v) &&
             !cfg.fields[k].readOnly
    requires forall op :: op in ops ==> Allowed(cfg, op)
    ensures var now := Run(cfg, st, ops);
            var written := Step(cfg, now, Set(k, v));
            GetLocal(cfg, written, k).0 == Got(v) && SameRowsExcept(now.rows, written.rows, k)
  {
    RunAgrees(cfg, st, ops);
    var now := Run(cfg, st, ops);
    SetLocalAgrees(cfg, now, k, v);
    GetLocalAgrees(cfg, Step(cfg, now, Set(k, v)), k);
  }

  /** A deletion leaves no row, so the next read returns the default, and no other setting's rows are touched. */
  lemma ReadYourDeletes(cfg: Config, st: State, ops: seq<Op>, k: Key)
    requires Sound(cfg) && Covered(cfg) && Cold(cfg, st) && k in cfg.fields && !cfg.fields[k].readOnly
    requires forall op :: op in ops ==> Allowed(cfg, op)
    ensures var now := Run(cfg, st, ops);
            var deleted := Step(cfg, now, Del(k));
            && deleted.RowsOf(k) == [] && SameRowsExcept(now.rows, deleted.rows, k)
            && GetLocal(cfg, deleted, k).0 == Expected(Effective(cfg, deleted.rows, k))
  {
    RunAgrees(cfg, st, ops);
    var now := Run(cfg, st, ops);
    DeleteRowsAgrees(cfg, now, k);
    GetLocalAgrees(cfg, Step(cfg, now, Del(k)), k);
  }
}
