/** The database-backed settings and their cache, as values.

    One process, one cache.  Each operation is a function from state to state; the class in
    SettingsWrapper.dfy performs the same operations on its fields and is proved equal to these
    functions.  Theorems about whole runs are in SettingsCoherence.dfy. */
module SettingsCache {
  import opened Wrappers
  import opened SettingValues

  // ---------------------------------------------------------------- encryption

  /** A text is stored as it is, or encrypted under a key derived from an optional row id. */
  datatype Stored = Plain(v: Value) | Cipher(pk: Option<nat>, v: Value)

  predicate LooksEncrypted(v: Value) {
    v.Text? && ENCRYPTED_PREFIX <= v.text
  }

  function EncryptField(pk: Option<nat>, v: Value): Stored {
    if v.Text? && v.text != "" && !LooksEncrypted(v) then Cipher(pk, v) else Plain(v)
  }

  /** None is a token that does not decrypt. */
  function DecryptField(pk: Option<nat>, s: Stored): Option<Value> {
    match s
    case Plain(v) => if LooksEncrypted(v) then None else Some(v)
    case Cipher(pk', v) => if pk == pk' then Some(v) else None
  }

  /** A text is encrypted under the row's id, unless it is empty or begins like one that is already. */
  lemma EncryptsExactly(pk: Option<nat>, text: string)
    ensures EncryptField(pk, Text("$encrypted$" + text)) == Plain(Text("$encrypted$" + text))
    ensures EncryptField(pk, Text("")) == Plain(Text(""))
    ensures text != "" && !("$encrypted$" <= text) ==> EncryptField(pk, Text(text)) == Cipher(pk, Text(text))
  {
    assert "$encrypted$" <= "$encrypted$" + text;
  }

  // ---------------------------------------------------------------- configuration

  /** A default is absent, a constant, or computed from other settings read through the wrapper. */
  datatype Default =
    | NoDefault
    | Const(v: Value)
    | Derived(needs: seq<Key>, f: seq<Option<Value>> -> Value)

  datatype Field = Field(
    encrypted: bool, readOnly: bool,
    isolated: bool,       // AWX_ISOLATED_PRIVATE_KEY and AWX_ISOLATED_PUBLIC_KEY
    default: Default, dependsOn: set<Key>)
  {
    /** Settings whose value is looked up in the database (and which the preload covers). */
    predicate ReadsRows() { !readOnly || isolated }

    function Reads(): seq<Key> {
      if default.Derived? then default.needs else []
    }
  }

  datatype Config = Config(order: seq<Key>, fields: map<Key, Field>, rank: map<Key, nat>) {
    /** Default values are computed from settings of lower rank, so reading one terminates. */
    ghost predicate WellFounded() {
      && rank.Keys == fields.Keys
      && (forall k :: k in order <==> k in fields)
      && (forall k, r :: k in fields && r in fields[k].Reads() ==> r in fields && rank[r] < rank[k])
    }

    /** A value this setting may hold without being mistaken for a marker or a cipher text. */
    predicate Clean(k: Key, v: Value)
      requires k in fields
    {
      Storable(v) && (fields[k].encrypted ==> v.Text? && !LooksEncrypted(v))
    }

    /** A value an assignment can store so that it can be read back. */
    predicate Assignable(k: Key, v: Value)
      requires k in fields
    {
      fields[k].encrypted ==> !LooksEncrypted(v)
    }

    ghost predicate CleanDefault(k: Key)
      requires k in fields
    {
      match fields[k].default
      case NoDefault => true
      case Const(v) => Clean(k, v)
      case Derived(_, f) => forall args :: Clean(k, f(args))
    }

    ghost predicate CleanDefaults() {
      forall k :: k in fields ==> CleanDefault(k)
    }
  }

  // ---------------------------------------------------------------- state

  datatype Row = Row(id: nat, stored: Stored)
  datatype Entry = Entry(item: Stored, expires: nat)
  datatype IdEntry = IdEntry(id: Option<nat>, expires: nat)

  datatype State = State(
    now: nat, nextId: nat,
    rows: map<Key, seq<Row>>,        // rows without a user, in primary key order
    cache: map<Key, Entry>, ids: map<Key, IdEntry>,          // the NAME_ID entries of the cache
    localExpires: Option<nat>,       // this process's own preload timer
    sharedExpires: Option<nat>)      // the _awx_conf_preload_expires entry of the cache
  {
    function RowsOf(k: Key): seq<Row> {
      if k in rows then rows[k] else []
    }

    predicate LocalLive() { localExpires.Some? && localExpires.value > now }
    predicate SharedLive() { sharedExpires.Some? && now < sharedExpires.value }
    predicate Live(k: Key) { k in cache && now < cache[k].expires }
  }

  /** Every row's value can be read back: plain, or encrypted under the row's own id. */
  ghost predicate RowsReadable(cfg: Config, rows: map<Key, seq<Row>>) {
    forall k :: k in rows && k in cfg.fields ==> forall r :: r in rows[k] ==> RowReadable(cfg, k, r)
  }

  predicate RowReadable(cfg: Config, k: Key, r: Row)
    requires k in cfg.fields
  {
    if cfg.fields[k].encrypted then DecryptField(Some(r.id), r.stored).Some? else r.stored.Plain?
  }

  function RowValue(cfg: Config, k: Key, r: Row): Value
    requires k in cfg.fields && RowReadable(cfg, k, r)
  {
    if cfg.fields[k].encrypted then DecryptField(Some(r.id), r.stored).value else r.stored.v
  }

  // ---------------------------------------------------------------- reading

  datatype Outcome = Got(value: Value) | NotSet | InvalidToken {
    function ToOption(): Option<Value> {
      if Got? then Some(value) else None
    }
  }

  /** The id the encrypting proxy uses: the cached one while it lives, else the first row's. */
  function LookupId(cfg: Config, st: State, k: Key): Option<nat>
    requires k in cfg.fields
  {
    if k in st.ids && st.now < st.ids[k].expires then st.ids[k].id
    else if !cfg.fields[k].readOnly && st.RowsOf(k) != [] then Some(st.RowsOf(k)[0].id)
    else None
  }

  /** What the proxy puts in the cache for a value. */
  function EntryFor(cfg: Config, st: State, k: Key, v: Value): Entry
    requires k in cfg.fields
  {
    var item := if cfg.fields[k].encrypted then EncryptField(LookupId(cfg, st, k), v) else Plain(v);
    Entry(item, st.now + SETTING_CACHE_TIMEOUT)
  }

  function CacheSet(cfg: Config, st: State, k: Key, v: Value): State
    requires k in cfg.fields
  {
    st.(cache := st.cache[k := EntryFor(cfg, st, k, v)])
  }

  datatype CacheGet = Miss | Hit(v: Value) | BadToken

  function CacheLookup(cfg: Config, st: State, k: Key): CacheGet
    requires k in cfg.fields
  {
    if !st.Live(k) then Miss
    else if cfg.fields[k].encrypted then
      var d := DecryptField(LookupId(cfg, st, k), st.cache[k].item);
      if d.None? then BadToken else Hit(d.value)
    else Hit(st.cache[k].item.v)
  }

  /** field.get_default(), whose callable may read other settings; NOTSET stands for SkipField. */
  function DefaultValue(cfg: Config, st: State, k: Key): (r: (Value, State))
    requires cfg.WellFounded() && k in cfg.fields && RowsReadable(cfg, st.rows)
    ensures r.1.rows == st.rows
    decreases cfg.rank[k], 1
  {
    match cfg.fields[k].default
    case NoDefault => (NOTSET, st)
    case Const(v) => (v, st)
    case Derived(needs, f) =>
      assert needs == cfg.fields[k].Reads();
      var args := ReadAll(cfg, st, needs, cfg.rank[k]);
      (f(args.0), args.1)
  }

  function ReadAll(cfg: Config, st: State, ks: seq<Key>, bound: nat): (r: (seq<Option<Value>>, State))
    requires cfg.WellFounded() && RowsReadable(cfg, st.rows)
    requires forall k :: k in ks ==> k in cfg.fields && cfg.rank[k] < bound
    ensures r.1.rows == st.rows && |r.0| == |ks|
    decreases bound, 0, |ks|
  {
    if ks == [] then ([], st)
    else
      var first := Lookup(cfg, st, ks[0]);
      var rest := ReadAll(cfg, first.1, ks[1..], bound);
      ([first.0.ToOption()] + rest.0, rest.1)
  }

  datatype Fetched = Fetched(value: Value, id: Option<Option<nat>>, st: State)

  /** The value a read takes from the database or the default, the row id to remember for it (the
      inner None is the marker for "no row"), and the state after any settings the default read. */
  function Fetch(cfg: Config, st: State, k: Key): (r: Fetched)
    requires cfg.WellFounded() && k in cfg.fields && RowsReadable(cfg, st.rows)
    ensures r.st.rows == st.rows
    decreases cfg.rank[k], 2
  {
    var field := cfg.fields[k];
    if field.ReadsRows() && st.RowsOf(k) != [] then
      var row := st.RowsOf(k)[0];
      Fetched(RowValue(cfg, k, row), if field.encrypted then Some(Some(row.id)) else None, st)
    else
      var d := DefaultValue(cfg, st, k);
      Fetched(d.0, if field.encrypted && !field.default.NoDefault? then Some(None) else None, d.1)
  }

  /** A read once the preload has been dealt with. */
  function Lookup(cfg: Config, st: State, k: Key): (r: (Outcome, State))
    requires cfg.WellFounded() && k in cfg.fields && RowsReadable(cfg, st.rows)
    ensures r.1.rows == st.rows
    decreases cfg.rank[k], 3
  {
    var cached := CacheLookup(cfg, st, k);
    if cached.BadToken? then (InvalidToken, st)
    else if cached.Hit? && Decode(cached.v).Some? then (Got(Decode(cached.v).value), st)
    else
      var fetched := Fetch(cfg, st, k);
      var v := if fetched.value == Null then NOTSET else fetched.value;
      var st2 := if cached == Hit(v) then fetched.st
                 else CacheSet(cfg, RememberId(fetched.st, k, fetched.id), k, GetCacheValue(v));
      (if v == NOTSET then NotSet else Got(v), st2)
  }

  function RememberId(st: State, k: Key, id: Option<Option<nat>>): State {
    if id.None? then st else st.(ids := st.ids[k := IdEntry(id.value, st.now + DEFAULT_CACHE_TIMEOUT)])
  }

  // ---------------------------------------------------------------- preloading

  datatype Scanned = Scanned(value: Value, id: Option<Option<nat>>)

  /** The first row whose cache value is not the not-set marker, scanning in primary key order;
      the id of the last row scanned is kept for an encrypted setting. */
  function ScanRows(cfg: Config, k: Key, rows: seq<Row>, id: Option<Option<nat>>): Scanned
    requires k in cfg.fields && forall r :: r in rows ==> RowReadable(cfg, k, r)
    decreases |rows|
  {
    if rows == [] then Scanned(NOTSET, id)
    else
      var v := GetCacheValue(RowValue(cfg, k, rows[0]));
      var id' := if cfg.fields[k].encrypted then Some(Some(rows[0].id)) else None;
      if v != NOTSET then Scanned(v, id') else ScanRows(cfg, k, rows[1..], id')
  }

  /** What the preload caches for one setting. */
  function PreloadOne(cfg: Config, st: State, k: Key): (r: Fetched)
    requires cfg.WellFounded() && k in cfg.fields && RowsReadable(cfg, st.rows)
    ensures r.st.rows == st.rows
  {
    var scan := ScanRows(cfg, k, st.RowsOf(k), None);
    if scan.value != NOTSET || cfg.fields[k].default.NoDefault? then Fetched(scan.value, scan.id, st)
    else
      var d := DefaultValue(cfg, st, k);
      Fetched(GetCacheValue(d.0), if cfg.fields[k].encrypted then Some(None) else scan.id, d.1)
  }

  datatype Gathered = Gathered(values: map<Key, Value>, ids: map<Key, Option<nat>>, st: State)

  function Gather(cfg: Config, g: Gathered, ks: seq<Key>): (r: Gathered)
    requires cfg.WellFounded() && RowsReadable(cfg, g.st.rows)
    requires forall k :: k in ks ==> k in cfg.fields
    ensures r.st.rows == g.st.rows
    decreases |ks|
  {
    if ks == [] then g
    else Gather(cfg, GatherOne(cfg, g, ks[0]), ks[1..])
  }

  function GatherOne(cfg: Config, g: Gathered, k: Key): (r: Gathered)
    requires cfg.WellFounded() && k in cfg.fields && RowsReadable(cfg, g.st.rows)
    ensures r.st.rows == g.st.rows
  {
    if !cfg.fields[k].ReadsRows() then g
    else
      var one := PreloadOne(cfg, g.st, k);
      Gathered(g.values[k := one.value], if one.id.None? then g.ids else g.ids[k := one.id.value], one.st)
  }

  function IdsFor(now: nat, newIds: map<Key, Option<nat>>, todo: set<Key>): map<Key, IdEntry> {
    map k | k in newIds && k !in todo :: IdEntry(newIds[k], now + DEFAULT_CACHE_TIMEOUT)
  }

  function StoreIds(st: State, newIds: map<Key, Option<nat>>): State {
    st.(ids := st.ids + IdsFor(st.now, newIds, {}))
  }

  function EntriesFor(cfg: Config, st: State, values: map<Key, Value>, todo: set<Key>): map<Key, Entry>
    requires values.Keys <= cfg.fields.Keys
  {
    map k | k in values && k !in todo :: EntryFor(cfg, st, k, values[k])
  }

  function StoreValues(cfg: Config, st: State, values: map<Key, Value>): State
    requires values.Keys <= cfg.fields.Keys
  {
    st.(cache := st.cache + EntriesFor(cfg, st, values, {}))
  }

  function StoreAll(cfg: Config, st: State, values: map<Key, Value>, newIds: map<Key, Option<nat>>): (r: State)
    requires values.Keys <= cfg.fields.Keys
    ensures r.rows == st.rows
  {
    StoreValues(cfg, StoreIds(st, newIds), values).(sharedExpires := Some(st.now + SETTING_CACHE_TIMEOUT))
  }

  function Preload(cfg: Config, st: State): (r: State)
    requires cfg.WellFounded() && RowsReadable(cfg, st.rows)
    ensures r.rows == st.rows
  {
    if st.LocalLive() then st
    else
      var st1 := st.(localExpires := Some(st.now + SETTING_CACHE_TIMEOUT));
      if st1.SharedLive() then st1
      else
        var g := Gather(cfg, Gathered(map[], map[], st1), cfg.order);
        GatheredKeys(cfg, Gathered(map[], map[], st1), cfg.order);
        StoreAll(cfg, g.st, g.values, g.ids)
  }

  lemma {:induction false} GatheredKeys(cfg: Config, g: Gathered, ks: seq<Key>)
    requires cfg.WellFounded() && RowsReadable(cfg, g.st.rows)
    requires forall k :: k in ks ==> k in cfg.fields
    ensures forall k :: k in Gather(cfg, g, ks).values <==>
              k in g.values || (k in ks && cfg.fields[k].ReadsRows())
    decreases |ks|
  {
    if ks == [] {
    } else {
      GatheredKeys(cfg, GatherOne(cfg, g, ks[0]), ks[1..]);
    }
  }

  function GetLocal(cfg: Config, st: State, k: Key): (r: (Outcome, State))
    requires cfg.WellFounded() && k in cfg.fields && RowsReadable(cfg, st.rows)
    ensures r.1.rows == st.rows
  {
    Lookup(cfg, Preload(cfg, st), k)
  }

  // ---------------------------------------------------------------- writing

  function Dependents(cfg: Config, key: Key, ks: seq<Key>): (r: seq<Key>)
    requires forall k :: k in ks ==> k in cfg.fields
    ensures forall k :: k in r <==> k in ks && key in cfg.fields[k].dependsOn
    decreases |ks|
  {
    if ks == [] then []
    else (if key in cfg.fields[ks[0]].dependsOn then [ks[0]] else []) + Dependents(cfg, key, ks[1..])
  }

  function GetMany(cfg: Config, st: State, ks: seq<Key>): (r: State)
    requires cfg.WellFounded() && RowsReadable(cfg, st.rows)
    requires forall k :: k in ks ==> k in cfg.fields
    ensures r.rows == st.rows
    decreases |ks|
  {
    if ks == [] then st else GetMany(cfg, GetLocal(cfg, st, ks[0]).1, ks[1..])
  }

  /** Drop the changed setting and its direct dependents, then re-read each for the change signal. */
  function HandleSettingChange(cfg: Config, st: State, key: Key): (r: State)
    requires cfg.WellFounded() && key in cfg.fields && RowsReadable(cfg, st.rows)
    ensures r.rows == st.rows
  {
    var keys := [key] + Dependents(cfg, key, cfg.order);
    GetMany(cfg, st.(cache := st.cache - set k | k in keys), keys)
  }

  /** The stored form of a value in a row that already has its primary key. */
  function StoredForm(cfg: Config, k: Key, id: nat, v: Value): (s: Stored)
    requires k in cfg.fields && cfg.Assignable(k, v)
    ensures RowReadable(cfg, k, Row(id, s)) && RowValue(cfg, k, Row(id, s)) == v
  {
    if cfg.fields[k].encrypted then EncryptField(Some(id), v) else Plain(v)
  }

  /** Saves row `id` of k, the first one, or the only one if there was none. */
  function PutFirst(cfg: Config, st: State, k: Key, id: nat, s: Stored): (r: State)
    requires k in cfg.fields && RowsReadable(cfg, st.rows) && RowReadable(cfg, k, Row(id, s))
    ensures RowsReadable(cfg, r.rows)
  {
    var later := if st.RowsOf(k) == [] then [] else st.RowsOf(k)[1..];
    st.(rows := st.rows[k := [Row(id, s)] + later])
  }

  /** One save of a row, and the change signal that follows it. */
  function SaveRow(cfg: Config, st: State, k: Key, id: nat, s: Stored): (r: State)
    requires cfg.WellFounded() && k in cfg.fields && RowsReadable(cfg, st.rows) && RowReadable(cfg, k, Row(id, s))
    ensures RowsReadable(cfg, r.rows)
  {
    HandleSettingChange(cfg, PutFirst(cfg, st, k, id, s), k)
  }

  function TakeId(st: State): State {
    st.(nextId := st.nextId + 1)
  }

  /** Creating a row.  An encrypted value needs the row's id, so the row is first saved empty and
      saved again with the encrypted value; each save announces a change. */
  function CreateRow(cfg: Config, st: State, k: Key, v: Value): (r: State)
    requires cfg.WellFounded() && k in cfg.fields && RowsReadable(cfg, st.rows) && cfg.Assignable(k, v)
    ensures RowsReadable(cfg, r.rows)
  {
    SaveRow(cfg, SaveEmpty(cfg, TakeId(st), k, st.nextId), k, st.nextId, StoredForm(cfg, k, st.nextId, v))
  }

  /** The first of the two saves of a new encrypted row. */
  function SaveEmpty(cfg: Config, st: State, k: Key, id: nat): (r: State)
    requires cfg.WellFounded() && k in cfg.fields && RowsReadable(cfg, st.rows)
    ensures RowsReadable(cfg, r.rows)
  {
    if cfg.fields[k].encrypted then SaveRow(cfg, st, k, id, Plain(Text(""))) else st
  }

  /** Assigning a setting.  None is the error raised for a read-only setting. */
  function SetLocal(cfg: Config, st: State, k: Key, v: Value): (r: Option<State>)
    requires cfg.WellFounded() && k in cfg.fields && RowsReadable(cfg, st.rows) && cfg.Assignable(k, v)
  {
    if cfg.fields[k].readOnly then None
    else if st.RowsOf(k) == [] then Some(CreateRow(cfg, st, k, v))
    else
      var row := st.RowsOf(k)[0];
      if row.stored == Plain(v) then Some(st)
      else Some(SaveRow(cfg, st, k, row.id, StoredForm(cfg, k, row.id, v)))
  }

  function DeleteRows(cfg: Config, st: State, k: Key): (r: State)
    requires cfg.WellFounded() && k in cfg.fields && RowsReadable(cfg, st.rows)
    ensures RowsReadable(cfg, r.rows)
    decreases |st.RowsOf(k)|
  {
    if st.RowsOf(k) == [] then st
    else DeleteRows(cfg, HandleSettingChange(cfg, st.(rows := st.rows[k := st.RowsOf(k)[1..]]), k), k)
  }

  /** Deleting a setting removes its rows one after another, each with its own change signal. */
  function DelLocal(cfg: Config, st: State, k: Key): (r: Option<State>)
    requires cfg.WellFounded() && k in cfg.fields && RowsReadable(cfg, st.rows)
  {
    if cfg.fields[k].readOnly then None else Some(DeleteRows(cfg, st, k))
  }

  // ---------------------------------------------------------------- the reference: row, else default

  /** What a setting means, with no cache at all: its first row, else its default. */
  ghost function Effective(cfg: Config, rows: map<Key, seq<Row>>, k: Key): Option<Value>
    requires cfg.WellFounded() && k in cfg.fields && RowsReadable(cfg, rows)
    decreases cfg.rank[k], 1
  {
    var field := cfg.fields[k];
    if field.ReadsRows() && k in rows && rows[k] != [] then Some(RowValue(cfg, k, rows[k][0]))
    else match field.default
      case NoDefault => None
      case Const(v) => Some(v)
      case Derived(needs, f) =>
        assert needs == field.Reads();
        Some(f(EffectiveAll(cfg, rows, needs, cfg.rank[k])))
  }

  ghost function EffectiveAll(cfg: Config, rows: map<Key, seq<Row>>, ks: seq<Key>, bound: nat): (r: seq<Option<Value>>)
    requires cfg.WellFounded() && RowsReadable(cfg, rows)
    requires forall k :: k in ks ==> k in cfg.fields && cfg.rank[k] < bound
    decreases bound, 0, |ks|
  {
    if ks == [] then []
    else [Effective(cfg, rows, ks[0])] + EffectiveAll(cfg, rows, ks[1..], bound)
  }

  /** The first row counts for every setting that can be assigned, and for the two that are isolated; for any other it
      is as if there were none. */
  lemma RowCounts(cfg: Config, rows: map<Key, seq<Row>>, k: Key)
    requires cfg.WellFounded() && k in cfg.fields && RowsReadable(cfg, rows) && k in rows && rows[k] != []
    ensures !cfg.fields[k].readOnly || cfg.fields[k].isolated ==>
              Effective(cfg, rows, k) == Some(RowValue(cfg, k, rows[k][0]))
    ensures cfg.fields[k].readOnly && !cfg.fields[k].isolated ==>
              match cfg.fields[k].default
              case NoDefault => Effective(cfg, rows, k) == None
              case Const(v) => Effective(cfg, rows, k) == Some(v)
              case Derived(_, _) => true
  {
  }

  /** Every setting whose value can influence the default of k. */
  ghost function Influences(cfg: Config, k: Key): set<Key>
    requires cfg.WellFounded() && k in cfg.fields
    decreases cfg.rank[k]
  {
    set r, x | r in cfg.fields[k].Reads() && x in {r} + Influences(cfg, r) :: x
  }
}
