/** Encrypted settings need a default: without one, the row id an entry was encrypted under can be
    forgotten while the entry still lives. */
module SettingsIds {
  import opened Wrappers
  import opened SettingValues
  import opened SettingsCache
  import opened SettingsCoherence

  /** A live entry gives back what was stored exactly when the setting is not encrypted, or the value was one that is
      not encrypted, or the id used for reading is the one that was used for storing. */
  lemma ReadableExactly(cfg: Config, st: State, st': State, k: Key, v: Value)
    requires k in cfg.fields && st'.Live(k) && st'.cache[k] == CacheSet(cfg, st, k, v).cache[k]
    ensures CacheLookup(cfg, st', k) == Hit(v) <==>
            || !cfg.fields[k].encrypted
            || (!LooksEncrypted(v) && (!v.Text? || v.text == "" || LookupId(cfg, st', k) == LookupId(cfg, st, k)))
  {
    assert v == Text("") ==> !LooksEncrypted(v);
  }

  /** No run from a cold cache makes a read fail on a token it cannot decrypt. */
  ghost predicate TokensReadable(cfg: Config)
    requires cfg.WellFounded()
  {
    forall st: State, ops: seq<Op>, k: Key ::
      Cold(cfg, st) && k in cfg.fields && (forall op :: op in ops ==> Allowed(cfg, op)) ==>
        GetLocal(cfg, Run(cfg, st, ops), k).0 != InvalidToken
  }

  ghost predicate Exposed(cfg: Config, k: Key) {
    k in cfg.fields && cfg.fields[k].encrypted && !cfg.fields[k].readOnly && cfg.fields[k].default.NoDefault?
  }

  /** What reads of any settings preserve about an exposed setting k at one moment: its remembered id
      is that of its one row, and once the row is gone only the not-set marker is cached for it, under
      the id still remembered. */
  ghost predicate Haunted(cfg: Config, st: State, k: Key, id: nat, until: nat, cached: bool) {
    && |st.RowsOf(k)| <= 1
    && (st.RowsOf(k) != [] ==> st.RowsOf(k)[0].id == id && until == st.now + DEFAULT_CACHE_TIMEOUT)
    && (k in st.ids ==> st.ids[k] == IdEntry(Some(id), until))
    && (cached ==> k in st.cache) && (k in st.cache ==> k in st.ids)
    && (st.RowsOf(k) == [] ==>
          && k in st.ids && st.now < until
          && (k in st.cache ==> st.cache[k] == Entry(EncryptField(Some(id), NOTSET), st.now + SETTING_CACHE_TIMEOUT)))
  }

  lemma {:induction false} ReadAllHaunted(cfg: Config, st: State, ks: seq<Key>, bound: nat, k: Key, id: nat, until: nat,
                                          cached: bool)
    requires cfg.WellFounded() && RowsReadable(cfg, st.rows) && Exposed(cfg, k) &&
             Haunted(cfg, st, k, id, until, cached)
    requires forall j :: j in ks ==> j in cfg.fields && cfg.rank[j] < bound
    ensures var r := ReadAll(cfg, st, ks, bound).1;
            Haunted(cfg, r, k, id, until, cached) && r.now == st.now && r.localExpires == st.localExpires
    decreases bound, 0, |ks|
  {
    if ks == [] {
    } else {
      LookupHaunted(cfg, st, ks[0], k, id, until, cached);
      ReadAllHaunted(cfg, Lookup(cfg, st, ks[0]).1, ks[1..], bound, k, id, until, cached);
    }
  }

  lemma {:induction false} DefaultHaunted(cfg: Config, st: State, j: Key, k: Key, id: nat, until: nat, cached: bool)
    requires cfg.WellFounded() && RowsReadable(cfg, st.rows) && Exposed(cfg, k) &&
             Haunted(cfg, st, k, id, until, cached)
    requires j in cfg.fields
    ensures var r := DefaultValue(cfg, st, j).1;
            Haunted(cfg, r, k, id, until, cached) && r.now == st.now && r.localExpires == st.localExpires
    decreases cfg.rank[j], 1
  {
    match cfg.fields[j].default
    case NoDefault =>
    case Const(_) =>
    case Derived(needs, _) =>
      assert needs == cfg.fields[j].Reads();
      ReadAllHaunted(cfg, st, needs, cfg.rank[j], k, id, until, cached);
  }

  lemma FillHaunted(cfg: Config, st: State, j: Key, v: Value, newId: Option<Option<nat>>, k: Key, id: nat, until: nat,
                    cached: bool)
    requires Exposed(cfg, k) && Haunted(cfg, st, k, id, until, cached) && j in cfg.fields
    requires j == k && st.RowsOf(k) != [] ==> newId == Some(Some(id))
    requires j == k && st.RowsOf(k) == [] ==> newId == None && v == NOTSET
    ensures var r := CacheSet(cfg, RememberId(st, j, newId), j, v);
            Haunted(cfg, r, k, id, until, cached || j == k) && r.now == st.now && r.localExpires == st.localExpires
  {
  }

  lemma {:induction false} LookupHaunted(cfg: Config, st: State, j: Key, k: Key, id: nat, until: nat, cached: bool)
    requires cfg.WellFounded() && RowsReadable(cfg, st.rows) && Exposed(cfg, k) &&
             Haunted(cfg, st, k, id, until, cached)
    requires j in cfg.fields
    ensures var r := Lookup(cfg, st, j).1;
            Haunted(cfg, r, k, id, until, cached || j == k) && r.now == st.now && r.localExpires == st.localExpires
    decreases cfg.rank[j], 3
  {
    var fetched := Fetch(cfg, st, j);
    var v := GetCacheValue(if fetched.value == Null then NOTSET else fetched.value);
    FetchHaunted(cfg, st, j, k, id, until, cached || k in st.cache);
    FillHaunted(cfg, fetched.st, j, v, fetched.id, k, id, until, cached || k in st.cache);
    LookupLeads(cfg, st, j);
  }

  /** A read answered by the cache changes nothing, and one that is not ends in a fill, unless it finds what is
      cached. */
  lemma LookupLeads(cfg: Config, st: State, j: Key)
    requires cfg.WellFounded() && RowsReadable(cfg, st.rows) && j in cfg.fields
    ensures var r, fetched := Lookup(cfg, st, j).1, Fetch(cfg, st, j);
            var v := GetCacheValue(if fetched.value == Null then NOTSET else fetched.value);
            || (r == st && j in st.cache)
            || (r == fetched.st && j in st.cache)
            || r == CacheSet(cfg, RememberId(fetched.st, j, fetched.id), j, v)
  {
  }

  lemma {:induction false} FetchHaunted(cfg: Config, st: State, j: Key, k: Key, id: nat, until: nat, cached: bool)
    requires cfg.WellFounded() && RowsReadable(cfg, st.rows) && Exposed(cfg, k) &&
             Haunted(cfg, st, k, id, until, cached)
    requires j in cfg.fields
    ensures var r := Fetch(cfg, st, j);
            && Haunted(cfg, r.st, k, id, until, cached) && r.st.now == st.now && r.st.localExpires == st.localExpires
            && (j == k && st.RowsOf(k) != [] ==> r.id == Some(Some(id)))
            && (j == k && st.RowsOf(k) == [] ==> r.id == None && r.value == NOTSET)
    decreases cfg.rank[j], 2
  {
    DefaultHaunted(cfg, st, j, k, id, until, cached);
  }

  ghost predicate GatheredHaunted(cfg: Config, g: Gathered, k: Key, id: nat, until: nat, cached: bool) {
    && Haunted(cfg, g.st, k, id, until, cached)
    && (k in g.ids ==> g.st.RowsOf(k) != [] && g.ids[k] == Some(id))
    && (k in g.values ==> (g.st.RowsOf(k) == [] ==> g.values[k] == NOTSET) && (g.st.RowsOf(k) != [] ==> k in g.ids))
  }

  lemma GatherOneHaunted(cfg: Config, g: Gathered, j: Key, k: Key, id: nat, until: nat, cached: bool)
    requires cfg.WellFounded() && RowsReadable(cfg, g.st.rows) && Exposed(cfg, k) && j in cfg.fields
    requires GatheredHaunted(cfg, g, k, id, until, cached)
    ensures var r := GatherOne(cfg, g, j);
            && GatheredHaunted(cfg, r, k, id, until, cached)
            && r.st.now == g.st.now && r.st.localExpires == g.st.localExpires
            && (j == k || k in g.values ==> k in r.values)
  {
    DefaultHaunted(cfg, g.st, j, k, id, until, cached);
    if j == k {
      var rows := g.st.RowsOf(k);
      if rows == [] {
        assert ScanRows(cfg, k, rows, None) == Scanned(NOTSET, None);
      } else {
        assert rows[1..] == [];
        assert ScanRows(cfg, k, rows, None).id == Some(Some(id));
      }
    }
  }

  lemma {:induction false} GatherHaunted(cfg: Config, g: Gathered, ks: seq<Key>, k: Key, id: nat, until: nat,
                                         cached: bool)
    requires cfg.WellFounded() && RowsReadable(cfg, g.st.rows) && Exposed(cfg, k)
    requires (forall j :: j in ks ==> j in cfg.fields) && GatheredHaunted(cfg, g, k, id, until, cached)
    ensures var r := Gather(cfg, g, ks);
            && GatheredHaunted(cfg, r, k, id, until, cached)
            && r.st.now == g.st.now && r.st.localExpires == g.st.localExpires
            && (k in ks || k in g.values ==> k in r.values)
    decreases |ks|
  {
    if ks == [] {
    } else {
      GatherOneHaunted(cfg, g, ks[0], k, id, until, cached);
      GatherHaunted(cfg, GatherOne(cfg, g, ks[0]), ks[1..], k, id, until, cached);
    }
  }

  lemma StoreAllHaunted(cfg: Config, g: Gathered, k: Key, id: nat, until: nat, cached: bool)
    requires Exposed(cfg, k) && g.values.Keys <= cfg.fields.Keys
    requires GatheredHaunted(cfg, g, k, id, until, cached)
    ensures var r := StoreAll(cfg, g.st, g.values, g.ids);
            && Haunted(cfg, r, k, id, until, cached)
            && r.now == g.st.now && r.localExpires == g.st.localExpires
            && (k in g.values ==> k in r.ids)
  {
  }

  /** A preload or a read, and what the exposed setting has afterwards. */
  lemma PreloadHaunted(cfg: Config, st: State, k: Key, id: nat, until: nat, cached: bool)
    requires cfg.WellFounded() && RowsReadable(cfg, st.rows) && Exposed(cfg, k)
    requires Haunted(cfg, st, k, id, until, cached)
    ensures var r := Preload(cfg, st);
            && Haunted(cfg, r, k, id, until, cached) && r.now == st.now
            && r.localExpires == (if st.LocalLive() then st.localExpires else Some(st.now + SETTING_CACHE_TIMEOUT))
            && (!st.LocalLive() && !st.SharedLive() ==> k in r.ids)
  {
    if !st.LocalLive() {
      var st1 := st.(localExpires := Some(st.now + SETTING_CACHE_TIMEOUT));
      if !st1.SharedLive() {
        var g0 := Gathered(map[], map[], st1);
        GatherHaunted(cfg, g0, cfg.order, k, id, until, cached);
        GatheredKeys(cfg, g0, cfg.order);
        StoreAllHaunted(cfg, Gather(cfg, g0, cfg.order), k, id, until, cached);
      }
    }
  }

  lemma GetHaunted(cfg: Config, st: State, j: Key, k: Key, id: nat, until: nat, cached: bool)
    requires cfg.WellFounded() && RowsReadable(cfg, st.rows) && Exposed(cfg, k) && j in cfg.fields
    requires Haunted(cfg, st, k, id, until, cached)
    ensures var r := GetLocal(cfg, st, j).1;
            && Haunted(cfg, r, k, id, until, cached || j == k) && r.now == st.now
            && r.localExpires == (if st.LocalLive() then st.localExpires else Some(st.now + SETTING_CACHE_TIMEOUT))
  {
    PreloadHaunted(cfg, st, k, id, until, cached);
    LookupHaunted(cfg, Preload(cfg, st), j, k, id, until, cached);
  }

  lemma {:induction false} GetManyHaunted(cfg: Config, st: State, ks: seq<Key>, k: Key, id: nat, until: nat)
    requires cfg.WellFounded() && RowsReadable(cfg, st.rows) && Exposed(cfg, k) && st.LocalLive()
    requires (forall j :: j in ks ==> j in cfg.fields) && Haunted(cfg, st, k, id, until, true)
    ensures var r := GetMany(cfg, st, ks);
            Haunted(cfg, r, k, id, until, true) && r.now == st.now && r.localExpires == st.localExpires
    decreases |ks|
  {
    if ks == [] {
    } else {
      GetHaunted(cfg, st, ks[0], k, id, until, true);
      GetManyHaunted(cfg, GetLocal(cfg, st, ks[0]).1, ks[1..], k, id, until);
    }
  }

  const SECRET := Text("s")

  function Encrypted1(cfg: Config, k: Key): State {
    State(0, 2, map[k := [Row(1, Cipher(Some(1), SECRET))]], map[], map[], None, None)
  }

  lemma SecretClean(cfg: Config, k: Key)
    requires Exposed(cfg, k)
    ensures Cold(cfg, Encrypted1(cfg, k))
  {
    assert "s"[0] != ENCRYPTED_PREFIX[0];
    assert |"s"| == 1 && |NOTSET.text| == 12 && |EMPTY_LIST.text| == 8 && |EMPTY_DICT.text| == 8;
    var row := Row(1, Cipher(Some(1), SECRET));
    assert RowReadable(cfg, k, row) && RowValue(cfg, k, row) == SECRET;
  }

  /** At time 0 the setting is read, which remembers id 1 until 300. */
  lemma FirstRead(cfg: Config, k: Key)
    requires cfg.WellFounded() && Exposed(cfg, k) && RowsReadable(cfg, Encrypted1(cfg, k).rows)
    ensures var st1 := GetLocal(cfg, Encrypted1(cfg, k), k).1;
            Haunted(cfg, st1, k, 1, 300, true) && st1.now == 0 && st1.localExpires == Some(60)
  {
    var st := Encrypted1(cfg, k);
    PreloadHaunted(cfg, st, k, 1, 300, false);
    GetHaunted(cfg, st, k, k, 1, 300, false);
  }

  /** At time 290 its row is deleted: the marker is cached until 350 under id 1. */
  lemma DeletedLate(cfg: Config, k: Key, st1: State)
    requires cfg.WellFounded() && Exposed(cfg, k) && RowsReadable(cfg, st1.rows)
    requires Haunted(cfg, st1, k, 1, 300, true) && st1.now == 0 && st1.localExpires == Some(60)
    requires |st1.RowsOf(k)| == 1
    ensures var st3 := DeleteRows(cfg, st1.(now := 290), k);
            Haunted(cfg, st3, k, 1, 300, true) && st3.now == 290 && st3.localExpires == Some(350) && st3.RowsOf(k) == []
  {
    var st2 := st1.(now := 290);
    var gone := st2.(rows := st2.rows[k := st2.RowsOf(k)[1..]]);
    assert gone.rows[k] == [];
    ChangedLate(cfg, k, gone);
    assert DeleteRows(cfg, st2, k) == DeleteRows(cfg, HandleSettingChange(cfg, gone, k), k);
  }

  lemma ChangedLate(cfg: Config, k: Key, gone: State)
    requires cfg.WellFounded() && Exposed(cfg, k) && RowsReadable(cfg, gone.rows)
    requires gone.RowsOf(k) == [] && k in gone.ids && gone.ids[k] == IdEntry(Some(1), 300)
    requires gone.now == 290 && gone.localExpires == Some(60)
    ensures var st3 := HandleSettingChange(cfg, gone, k);
            Haunted(cfg, st3, k, 1, 300, true) && st3.now == 290 && st3.localExpires == Some(350)
  {
    var keys := [k] + Dependents(cfg, k, cfg.order);
    var dropped := gone.(cache := gone.cache - set j | j in keys);
    assert Haunted(cfg, dropped, k, 1, 300, false);
    GetHaunted(cfg, dropped, k, k, 1, 300, false);
    var st1 := GetLocal(cfg, dropped, k).1;
    GetManyHaunted(cfg, st1, keys[1..], k, 1, 300);
    GetManyFirst(cfg, dropped, keys);
  }

  lemma GetManyFirst(cfg: Config, st: State, ks: seq<Key>)
    requires cfg.WellFounded() && RowsReadable(cfg, st.rows) && ks != [] && forall k :: k in ks ==> k in cfg.fields
    ensures GetMany(cfg, st, ks) == GetMany(cfg, GetLocal(cfg, st, ks[0]).1, ks[1..])
  {
  }

  /** At 305 the marker still lives, the id no longer does, and the entry cannot be decrypted. */
  lemma ForgottenId(cfg: Config, k: Key, st3: State)
    requires cfg.WellFounded() && Exposed(cfg, k) && RowsReadable(cfg, st3.rows)
    requires Haunted(cfg, st3, k, 1, 300, true) && st3.now == 290 && st3.localExpires == Some(350) &&
             st3.RowsOf(k) == []
    ensures GetLocal(cfg, st3.(now := 305), k).0 == InvalidToken
  {
    assert NOTSET.text[0] != ENCRYPTED_PREFIX[0] && |NOTSET.text| == 12;
    var st4 := st3.(now := 305);
    assert Preload(cfg, st4) == st4;
    assert CacheLookup(cfg, st4, k) == BadToken;
  }

  lemma MissingDefaultLosesId(cfg: Config, k: Key)
    requires cfg.WellFounded() && Exposed(cfg, k)
    ensures !TokensReadable(cfg)
  {
    SecretClean(cfg, k);
    var st := Encrypted1(cfg, k);
    FirstRead(cfg, k);
    var st1 := GetLocal(cfg, st, k).1;
    DeletedLate(cfg, k, st1);
    var st3 := DeleteRows(cfg, st1.(now := 290), k);
    ForgottenId(cfg, k, st3);
    FourSteps(cfg, st, k, st1, st3);
  }

  lemma FourSteps(cfg: Config, st: State, k: Key, st1: State, st3: State)
    requires cfg.WellFounded() && Exposed(cfg, k) && Cold(cfg, st)
    requires st1 == GetLocal(cfg, st, k).1 && st1.now == 0
    requires DelLocal(cfg, st1.(now := 290), k) == Some(st3) && st3.now == 290 && RowsReadable(cfg, st3.rows)
    requires GetLocal(cfg, st3.(now := 305), k).0 == InvalidToken
    ensures !TokensReadable(cfg)
  {
    LastThreeSteps(cfg, st1, k, st3);
    var last := [Tick(290)] + ([Del(k)] + ([Tick(15)] + []));
    RunCons(cfg, st, Get(k), last);
    FailingRun(cfg, st, [Get(k)] + last, k);
  }

  lemma FailingRun(cfg: Config, st: State, ops: seq<Op>, k: Key)
    requires cfg.WellFounded() && Cold(cfg, st) && k in cfg.fields && forall op :: op in ops ==> Allowed(cfg, op)
    requires GetLocal(cfg, Run(cfg, st, ops), k).0 == InvalidToken
    ensures !TokensReadable(cfg)
  {
  }

  lemma LastThreeSteps(cfg: Config, st1: State, k: Key, st3: State)
    requires cfg.WellFounded() && k in cfg.fields && RowsReadable(cfg, st1.rows) && st1.now == 0
    requires DelLocal(cfg, st1.(now := 290), k) == Some(st3) && st3.now == 290 && RowsReadable(cfg, st3.rows)
    ensures var ops := [Tick(290)] + ([Del(k)] + ([Tick(15)] + []));
            (forall op :: op in ops ==> Allowed(cfg, op)) && Run(cfg, st1, ops) == st3.(now := 305)
  {
    var st2 := st1.(now := 290);
    assert Step(cfg, st1, Tick(290)) == st2 && Step(cfg, st3, Tick(15)) == st3.(now := 305);
    RunCons(cfg, st3, Tick(15), []);
    RunCons(cfg, st2, Del(k), [Tick(15)] + []);
    RunCons(cfg, st1, Tick(290), [Del(k)] + ([Tick(15)] + []));
  }

  /** With complete depends_on lists, entries can always be decrypted exactly when every encrypted
      setting that can be assigned has a default. */
  lemma TokensReadableExact(cfg: Config)
    requires cfg.WellFounded() && cfg.CleanDefaults() && Covered(cfg)
    ensures TokensReadable(cfg) <==> IdsKnown(cfg)
  {
    if IdsKnown(cfg) {
      forall st: State, ops: seq<Op>, k: Key |
        Cold(cfg, st) && k in cfg.fields && (forall op :: op in ops ==> Allowed(cfg, op))
        ensures GetLocal(cfg, Run(cfg, st, ops), k).0 != InvalidToken
      {
        CacheAgreesWithDatabase(cfg, st, ops, k);
      }
    } else {
      var k :| k in cfg.fields && cfg.fields[k].encrypted && !cfg.fields[k].readOnly &&
          cfg.fields[k].default.NoDefault?;
      assert Exposed(cfg, k);
      MissingDefaultLosesId(cfg, k);
    }
  }
}
