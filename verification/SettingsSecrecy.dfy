/** Encrypted settings: what is stored for them, in the database and in the cache, is never a text in clear. */
module SettingsSecrecy {
  import opened Wrappers
  import opened SettingValues
  import opened SettingsCache
  import opened SettingsCoherence

  /** A text worth hiding, as it is. */
  predicate InClear(s: Stored) {
    s.Plain? && s.v.Text? && s.v.text != ""
  }

  /** Nothing in clear in the rows of an encrypted setting, and every encrypted value under its own row's id. */
  ghost predicate RowsSealed(cfg: Config, rows: map<Key, seq<Row>>) {
    forall k, r :: k in rows && k in cfg.fields && cfg.fields[k].encrypted && r in rows[k] ==> RowSealed(r)
  }

  predicate RowSealed(r: Row) {
    !InClear(r.stored) && (r.stored.Cipher? ==> r.stored.pk == Some(r.id))
  }

  /** Nothing in clear in the cache entry of an encrypted setting, except a text that itself begins with the marker of
      encrypted texts, which encryption leaves alone. */
  ghost predicate CacheSealed(cfg: Config, cache: map<Key, Entry>) {
    forall k :: k in cache && k in cfg.fields && cfg.fields[k].encrypted ==> EntrySealed(cache[k].item)
  }

  predicate EntrySealed(s: Stored) {
    !InClear(s) || ENCRYPTED_PREFIX <= s.v.text
  }

  ghost predicate Sealed(cfg: Config, st: State) {
    RowsSealed(cfg, st.rows) && CacheSealed(cfg, st.cache)
  }

  // ---------------------------------------------------------------- assignments

  /** The first row of the setting holds the value encrypted under the row's own id. */
  ghost predicate FirstRowHides(st: State, k: Key, v: Value) {
    st.RowsOf(k) != [] && st.RowsOf(k)[0].stored == Cipher(Some(st.RowsOf(k)[0].id), v)
  }

  /** Creating the row of an encrypted setting leaves its text encrypted, under the id of that row. */
  lemma CreatedHidden(cfg: Config, st: State, k: Key, v: Value)
    requires cfg.WellFounded() && k in cfg.fields && RowsReadable(cfg, st.rows) && cfg.Assignable(k, v)
    requires cfg.fields[k].encrypted && v.Text? && v.text != ""
    ensures FirstRowHides(CreateRow(cfg, st, k, v), k, v)
    ensures CreateRow(cfg, st, k, v).RowsOf(k)[0].id == st.nextId
  {
  }

  /** Assigning a text to an encrypted setting leaves it encrypted, under its own row's id, if and only if the first row
      did not hold that very text in clear: then nothing is saved. */
  lemma AssignedHiddenExactly(cfg: Config, st: State, k: Key, v: Value)
    requires cfg.WellFounded() && k in cfg.fields && RowsReadable(cfg, st.rows) && cfg.Assignable(k, v)
    requires cfg.fields[k].encrypted && !cfg.fields[k].readOnly && v.Text? && v.text != ""
    ensures SetLocal(cfg, st, k, v).Some?
    ensures FirstRowHides(SetLocal(cfg, st, k, v).value, k, v) <==>
            !(st.RowsOf(k) != [] && st.RowsOf(k)[0].stored == Plain(v))
  {
    if st.RowsOf(k) == [] {
      CreatedHidden(cfg, st, k, v);
    }
  }

  // ---------------------------------------------------------------- the cache

  lemma {:induction false} LookupSealed(cfg: Config, st: State, k: Key)
    requires cfg.WellFounded() && k in cfg.fields && RowsReadable(cfg, st.rows) && CacheSealed(cfg, st.cache)
    ensures CacheSealed(cfg, Lookup(cfg, st, k).1.cache)
    decreases cfg.rank[k], 3
  {
    FetchSealed(cfg, st, k);
  }

  lemma {:induction false} FetchSealed(cfg: Config, st: State, k: Key)
    requires cfg.WellFounded() && k in cfg.fields && RowsReadable(cfg, st.rows) && CacheSealed(cfg, st.cache)
    ensures CacheSealed(cfg, Fetch(cfg, st, k).st.cache)
    decreases cfg.rank[k], 2
  {
    if !(cfg.fields[k].ReadsRows() && st.RowsOf(k) != []) {
      DefaultSealed(cfg, st, k);
    }
  }

  lemma {:induction false} DefaultSealed(cfg: Config, st: State, k: Key)
    requires cfg.WellFounded() && k in cfg.fields && RowsReadable(cfg, st.rows) && CacheSealed(cfg, st.cache)
    ensures CacheSealed(cfg, DefaultValue(cfg, st, k).1.cache)
    decreases cfg.rank[k], 1
  {
    if cfg.fields[k].default.Derived? {
      assert cfg.fields[k].default.needs == cfg.fields[k].Reads();
      ReadAllSealed(cfg, st, cfg.fields[k].default.needs, cfg.rank[k]);
    }
  }

  lemma {:induction false} ReadAllSealed(cfg: Config, st: State, ks: seq<Key>, bound: nat)
    requires cfg.WellFounded() && RowsReadable(cfg, st.rows) && CacheSealed(cfg, st.cache)
    requires forall k :: k in ks ==> k in cfg.fields && cfg.rank[k] < bound
    ensures CacheSealed(cfg, ReadAll(cfg, st, ks, bound).1.cache)
    decreases bound, 0, |ks|
  {
    if ks != [] {
      LookupSealed(cfg, st, ks[0]);
      ReadAllSealed(cfg, Lookup(cfg, st, ks[0]).1, ks[1..], bound);
    }
  }

  lemma {:induction false} GatherSealed(cfg: Config, g: Gathered, ks: seq<Key>)
    requires cfg.WellFounded() && RowsReadable(cfg, g.st.rows) && CacheSealed(cfg, g.st.cache)
    requires forall k :: k in ks ==> k in cfg.fields
    ensures CacheSealed(cfg, Gather(cfg, g, ks).st.cache)
    decreases |ks|
  {
    if ks != [] {
      DefaultSealed(cfg, g.st, ks[0]);
      GatherSealed(cfg, GatherOne(cfg, g, ks[0]), ks[1..]);
    }
  }

  lemma StoreAllSealed(cfg: Config, st: State, values: map<Key, Value>, newIds: map<Key, Option<nat>>)
    requires values.Keys <= cfg.fields.Keys && CacheSealed(cfg, st.cache)
    ensures CacheSealed(cfg, StoreAll(cfg, st, values, newIds).cache)
  {
  }

  lemma GetLocalSealed(cfg: Config, st: State, k: Key)
    requires cfg.WellFounded() && k in cfg.fields && RowsReadable(cfg, st.rows) && CacheSealed(cfg, st.cache)
    ensures CacheSealed(cfg, GetLocal(cfg, st, k).1.cache)
  {
    PreloadSealed(cfg, st);
    LookupSealed(cfg, Preload(cfg, st), k);
  }

  lemma FillSealed(cfg: Config, st: State)
    requires cfg.WellFounded() && RowsReadable(cfg, st.rows) && CacheSealed(cfg, st.cache)
    ensures var g := Gather(cfg, Gathered(map[], map[], st), cfg.order);
            g.values.Keys <= cfg.fields.Keys && CacheSealed(cfg, StoreAll(cfg, g.st, g.values, g.ids).cache)
  {
    var g0 := Gathered(map[], map[], st);
    GatherSealed(cfg, g0, cfg.order);
    GatheredKeys(cfg, g0, cfg.order);
    var g := Gather(cfg, g0, cfg.order);
    StoreAllSealed(cfg, g.st, g.values, g.ids);
  }

  lemma PreloadSealed(cfg: Config, st: State)
    requires cfg.WellFounded() && RowsReadable(cfg, st.rows) && CacheSealed(cfg, st.cache)
    ensures CacheSealed(cfg, Preload(cfg, st).cache)
  {
    var st1 := st.(localExpires := Some(st.now + SETTING_CACHE_TIMEOUT));
    if !st.LocalLive() && !st1.SharedLive() {
      FillSealed(cfg, st1);
      var g := Gather(cfg, Gathered(map[], map[], st1), cfg.order);
      assert Preload(cfg, st) == StoreAll(cfg, g.st, g.values, g.ids);
    }
  }

  lemma {:induction false} GetManySealed(cfg: Config, st: State, ks: seq<Key>)
    requires cfg.WellFounded() && RowsReadable(cfg, st.rows) && CacheSealed(cfg, st.cache)
    requires forall k :: k in ks ==> k in cfg.fields
    ensures CacheSealed(cfg, GetMany(cfg, st, ks).cache)
    decreases |ks|
  {
    if ks != [] {
      GetLocalSealed(cfg, st, ks[0]);
      GetManySealed(cfg, GetLocal(cfg, st, ks[0]).1, ks[1..]);
    }
  }

  lemma ChangeSealed(cfg: Config, st: State, k: Key)
    requires cfg.WellFounded() && k in cfg.fields && RowsReadable(cfg, st.rows) && Sealed(cfg, st)
    ensures Sealed(cfg, HandleSettingChange(cfg, st, k))
  {
    var keys := [k] + Dependents(cfg, k, cfg.order);
    GetManySealed(cfg, st.(cache := st.cache - set k | k in keys), keys);
  }

  // ---------------------------------------------------------------- runs

  lemma SaveSealed(cfg: Config, st: State, k: Key, id: nat, s: Stored)
    requires cfg.WellFounded() && k in cfg.fields && RowsReadable(cfg, st.rows) && RowReadable(cfg, k, Row(id, s))
    requires Sealed(cfg, st) && (cfg.fields[k].encrypted ==> RowSealed(Row(id, s)))
    ensures Sealed(cfg, SaveRow(cfg, st, k, id, s))
  {
    var saved := PutFirst(cfg, st, k, id, s);
    forall j, r | j in saved.rows && j in cfg.fields && cfg.fields[j].encrypted && r in saved.rows[j]
      ensures RowSealed(r)
    {
      assert j == k ==> r == Row(id, s) || r in st.rows[k];
    }
    ChangeSealed(cfg, saved, k);
  }

  lemma SetSealed(cfg: Config, st: State, k: Key, v: Value)
    requires cfg.WellFounded() && k in cfg.fields && RowsReadable(cfg, st.rows) && cfg.Assignable(k, v)
    requires Sealed(cfg, st) && SetLocal(cfg, st, k, v).Some?
    ensures Sealed(cfg, SetLocal(cfg, st, k, v).value)
  {
    if st.RowsOf(k) == [] {
      var st1 := TakeId(st);
      if cfg.fields[k].encrypted {
        SaveSealed(cfg, st1, k, st.nextId, Plain(Text("")));
      }
      SaveSealed(cfg, SaveEmpty(cfg, st1, k, st.nextId), k, st.nextId, StoredForm(cfg, k, st.nextId, v));
    } else {
      var row := st.RowsOf(k)[0];
      if row.stored != Plain(v) {
        SaveSealed(cfg, st, k, row.id, StoredForm(cfg, k, row.id, v));
      }
    }
  }

  lemma {:induction false} DeleteSealed(cfg: Config, st: State, k: Key)
    requires cfg.WellFounded() && k in cfg.fields && RowsReadable(cfg, st.rows) && Sealed(cfg, st)
    ensures Sealed(cfg, DeleteRows(cfg, st, k))
    decreases |st.RowsOf(k)|
  {
    if st.RowsOf(k) != [] {
      var st1 := st.(rows := st.rows[k := st.RowsOf(k)[1..]]);
      ChangeSealed(cfg, st1, k);
      DeleteSealed(cfg, HandleSettingChange(cfg, st1, k), k);
    }
  }

  lemma StepSealed(cfg: Config, st: State, op: Op)
    requires cfg.WellFounded() && RowsReadable(cfg, st.rows) && Allowed(cfg, op) && Sealed(cfg, st)
    ensures Sealed(cfg, Step(cfg, st, op))
  {
    match op
    case Get(k) => GetLocalSealed(cfg, st, k);
    case Set(k, v) =>
      if !cfg.fields[k].readOnly {
        SetSealed(cfg, st, k, v);
      }
    case Del(k) => DeleteSealed(cfg, st, k);
    case Tick(n) =>
  }

  /** Over every run, whatever the configuration, nothing comes to be stored in clear for an encrypted setting. */
  lemma {:induction false} RunSealed(cfg: Config, st: State, ops: seq<Op>)
    requires cfg.WellFounded() && RowsReadable(cfg, st.rows) && Sealed(cfg, st)
    requires forall op :: op in ops ==> Allowed(cfg, op)
    ensures Sealed(cfg, Run(cfg, st, ops))
    decreases |ops|
  {
    if ops != [] {
      StepSealed(cfg, st, ops[0]);
      RunSealed(cfg, Step(cfg, st, ops[0]), ops[1..]);
    }
  }

  /** No row and no live entry of the setting is a text in clear. */
  ghost predicate Hidden(st: State, k: Key) {
    && (forall r :: r in st.RowsOf(k) ==> !InClear(r.stored))
    && (st.Live(k) ==> !InClear(st.cache[k].item))
  }

  /** Where the cache agrees with the database, this is so whatever the text. */
  lemma RunHidesAll(cfg: Config, st: State, ops: seq<Op>, k: Key)
    requires Sound(cfg) && Covered(cfg) && Cold(cfg, st) && RowsSealed(cfg, st.rows)
    requires k in cfg.fields && cfg.fields[k].encrypted && forall op :: op in ops ==> Allowed(cfg, op)
    ensures Hidden(Run(cfg, st, ops), k)
  {
    RunSealed(cfg, st, ops);
    RunAgrees(cfg, st, ops);
    SealedHides(cfg, Run(cfg, st, ops), k);
  }

  lemma SealedHides(cfg: Config, st: State, k: Key)
    requires Sound(cfg) && Coherent(cfg, st) && k in cfg.fields && cfg.fields[k].encrypted && RowsSealed(cfg, st.rows)
    ensures Hidden(st, k)
  {
    forall r | r in st.RowsOf(k) ensures !InClear(r.stored) {
      assert RowSealed(r);
    }
    if st.Live(k) {
      LiveHides(cfg, st, k);
    }
  }

  lemma LiveHides(cfg: Config, st: State, k: Key)
    requires Sound(cfg) && Coherent(cfg, st) && k in cfg.fields && cfg.fields[k].encrypted && st.Live(k)
    ensures !InClear(st.cache[k].item)
  {
    EffectiveClean(cfg, st.rows, k);
    assert EntryAgrees(cfg, st, k);
    assert ENCRYPTED_PREFIX[0] != NOTSET.text[0];
  }

  /** A text in clear that is there already is not removed by assigning it again. */
  lemma ClearTextStays(cfg: Config, st: State, k: Key, id: nat, text: string)
    requires cfg.WellFounded() && k in cfg.fields && RowsReadable(cfg, st.rows) && cfg.Assignable(k, Text(text))
    requires cfg.fields[k].encrypted && !cfg.fields[k].readOnly && text != ""
    requires st.RowsOf(k) == [Row(id, Plain(Text(text)))]
    ensures SetLocal(cfg, st, k, Text(text)) == Some(st) && InClear(st.RowsOf(k)[0].stored)
  {
    assert st.RowsOf(k)[0] == Row(id, Plain(Text(text)));
  }
}
