/** Exactly when the cache can be trusted: what is lost without complete depends_on lists, without
    defaults for encrypted settings, and with nulls or marker strings in the database. */
module SettingsLimits {
  import opened Wrappers
  import opened SettingValues
  import opened SettingsCache
  import opened SettingsCoherence

  // ---------------------------------------------------------------- nulls and marker strings

  /** A value survives the cache encoding exactly when it is neither null nor a marker string. */
  lemma DecodeExact(v: Value)
    ensures Decode(GetCacheValue(v)) == Some(v) <==> Storable(v)
  {
  }

  lemma MarkersDistinct()
    ensures NOTSET != EMPTY_LIST && NOTSET != EMPTY_DICT
    ensures !LooksEncrypted(NOTSET)
  {
    assert |NOTSET.text| == 12 && |EMPTY_LIST.text| == 8 && |EMPTY_DICT.text| == 8;
    assert NOTSET.text[0] != ENCRYPTED_PREFIX[0];
  }

  /** The value a read would cache for k. */
  function DirectMarker(cfg: Config, st: State, k: Key): Value
    requires cfg.WellFounded() && k in cfg.fields && RowsReadable(cfg, st.rows)
  {
    GetCacheValue(Fetch(cfg, st, k).value)
  }

  predicate Blank(v: Value) { v == Null || v == NOTSET }

  lemma {:induction false} ScanBlankRows(cfg: Config, k: Key, rows: seq<Row>, id: Option<Option<nat>>)
    requires k in cfg.fields && forall r :: r in rows ==> RowReadable(cfg, k, r)
    ensures ScanRows(cfg, k, rows, id).value == NOTSET <==> AllBlank(cfg, k, rows)
    ensures rows != [] && !Blank(RowValue(cfg, k, rows[0])) ==>
              ScanRows(cfg, k, rows, id).value == GetCacheValue(RowValue(cfg, k, rows[0]))
    decreases |rows|
  {
    MarkersDistinct();
    if rows == [] {
    } else {
      var id' := if cfg.fields[k].encrypted then Some(Some(rows[0].id)) else None;
      ScanBlankRows(cfg, k, rows[1..], id');
      assert rows[0] in rows;
      assert forall r :: r in rows <==> r == rows[0] || r in rows[1..];
    }
  }

  predicate AllBlank(cfg: Config, k: Key, rows: seq<Row>)
    requires k in cfg.fields && forall r :: r in rows ==> RowReadable(cfg, k, r)
  {
    forall r :: r in rows ==> Blank(RowValue(cfg, k, r))
  }

  lemma CacheValueBlank(v: Value)
    ensures GetCacheValue(v) == NOTSET <==> Blank(v)
  {
    MarkersDistinct();
  }

  lemma PreloadOneBlank(cfg: Config, st: State, k: Key)
    requires cfg.WellFounded() && k in cfg.fields && RowsReadable(cfg, st.rows)
    ensures PreloadOne(cfg, st, k).value == NOTSET <==>
            AllBlank(cfg, k, st.RowsOf(k)) && Blank(DefaultValue(cfg, st, k).0)
  {
    ScanBlankRows(cfg, k, st.RowsOf(k), None);
    CacheValueBlank(DefaultValue(cfg, st, k).0);
  }

  /** The preload and a direct read cache the same thing exactly when the first row is not blank, or
      nothing better than "not set" is to be found among the later rows and the default. */
  lemma PreloadMatchesDirectRead(cfg: Config, st: State, k: Key)
    requires cfg.WellFounded() && k in cfg.fields && RowsReadable(cfg, st.rows) && cfg.fields[k].ReadsRows()
    ensures PreloadOne(cfg, st, k).value == DirectMarker(cfg, st, k) <==>
            || st.RowsOf(k) == []
            || !Blank(RowValue(cfg, k, st.RowsOf(k)[0]))
            || (AllBlank(cfg, k, st.RowsOf(k)) && Blank(DefaultValue(cfg, st, k).0))
  {
    var rows := st.RowsOf(k);
    if rows == [] {
      assert ScanRows(cfg, k, rows, None) == Scanned(NOTSET, None);
      CacheValueBlank(DefaultValue(cfg, st, k).0);
    } else {
      PreloadOneBlank(cfg, st, k);
      ScanBlankRows(cfg, k, rows, None);
      CacheValueBlank(RowValue(cfg, k, rows[0]));
    }
  }

  const NULLABLE := Field(false, false, false, Const(Text("default")), {})
  const NULL_CONFIG := Config(["K"], map["K" := NULLABLE], map["K" := 0])
  const NULL_ROW := State(0, 2, map["K" := [Row(1, Plain(Null))]], map[], map[], None, None)

  /** A stored null over a default: the preload serves the default, a direct read says "not set". */
  lemma StoredNullReadsTwoWays()
    ensures NULL_CONFIG.WellFounded() && RowsReadable(NULL_CONFIG, NULL_ROW.rows)
    ensures PreloadOne(NULL_CONFIG, NULL_ROW, "K").value == Text("default")
    ensures Lookup(NULL_CONFIG, NULL_ROW, "K").0 == NotSet
  {
    assert NULL_CONFIG.fields["K"] == NULLABLE;
    assert NULL_ROW.RowsOf("K") == [Row(1, Plain(Null))];
    assert ScanRows(NULL_CONFIG, "K", NULL_ROW.RowsOf("K"), None) == Scanned(NOTSET, None);
  }

  // ---------------------------------------------------------------- depends_on must be complete

  ghost predicate ServesTruth(cfg: Config)
    requires cfg.WellFounded()
  {
    forall st: State, ops: seq<Op>, k: Key ::
      Cold(cfg, st) && k in cfg.fields && (forall op :: op in ops ==> Allowed(cfg, op)) ==>
        GetLocal(cfg, Run(cfg, st, ops), k).0 == Expected(Effective(cfg, Run(cfg, st, ops).rows, k))
  }

  /** The same settings, reading the same other settings, but computing any defaults from them. */
  ghost predicate SameShape(a: Config, b: Config) {
    && a.order == b.order && a.rank == b.rank && a.fields.Keys == b.fields.Keys
    && forall k :: k in a.fields ==>
         && b.fields[k] == a.fields[k].(default := b.fields[k].default)
         && b.fields[k].Reads() == a.fields[k].Reads()
         && (a.fields[k].default.NoDefault? <==> b.fields[k].default.NoDefault?)
  }

  const A := Text("a")
  const B := Text("b")

  function AnyB(args: seq<Option<Value>>): Value {
    if Some(B) in args then B else A
  }

  /** Constant defaults are "a", and a computed default says whether any input is "b". */
  ghost predicate Lettered(c: Config) {
    forall k :: k in c.fields ==> LetteredDefault(c.fields[k].default)
  }

  ghost predicate LetteredDefault(d: Default) {
    match d
    case NoDefault => true
    case Const(v) => v == A
    case Derived(_, f) => forall args :: f(args) == AnyB(args)
  }

  function LetterDefault(d: Default): (r: Default)
    ensures LetteredDefault(r)
    ensures d.NoDefault? <==> r.NoDefault?
    ensures d.Derived? <==> r.Derived?
    ensures d.Derived? ==> r.needs == d.needs
  {
    match d
    case NoDefault => NoDefault
    case Const(_) => Const(A)
    case Derived(needs, _) => Derived(needs, args => AnyB(args))
  }

  function Letter(cfg: Config): (c: Config)
    ensures SameShape(cfg, c) && Lettered(c)
  {
    cfg.(fields := map k | k in cfg.fields :: cfg.fields[k].(default := LetterDefault(cfg.fields[k].default)))
  }

  lemma LettersClean(cfg: Config, k: Key)
    requires k in cfg.fields
    ensures A != B && cfg.Clean(k, A) && cfg.Clean(k, B)
  {
    assert "a"[0] != "b"[0];
    assert "a"[0] != ENCRYPTED_PREFIX[0] && "b"[0] != ENCRYPTED_PREFIX[0];
    assert |"a"| == 1 && |"b"| == 1 && |NOTSET.text| == 12 && |EMPTY_LIST.text| == 8 && |EMPTY_DICT.text| == 8;
  }

  lemma LetteredSound(cfg: Config, c: Config)
    requires Sound(cfg) && SameShape(cfg, c) && Lettered(c)
    ensures Sound(c)
  {
    forall k | k in c.fields ensures c.CleanDefault(k) {
      LetteredClean(c, k);
    }
  }

  lemma LetteredClean(c: Config, k: Key)
    requires k in c.fields && LetteredDefault(c.fields[k].default)
    ensures c.CleanDefault(k)
  {
    LettersClean(c, k);
  }

  lemma {:induction false} InfluencesSameShape(a: Config, b: Config, k: Key)
    requires SameShape(a, b) && a.WellFounded() && b.WellFounded() && k in a.fields
    ensures Influences(a, k) == Influences(b, k)
    decreases a.rank[k]
  {
    forall r | r in a.fields[k].Reads() ensures Influences(a, r) == Influences(b, r) {
      InfluencesSameShape(a, b, r);
    }
  }

  lemma {:induction false} InfluencesSmaller(cfg: Config, k: Key, z: Key)
    requires cfg.WellFounded() && k in cfg.fields && z in Influences(cfg, k)
    ensures z in cfg.fields && cfg.rank[z] < cfg.rank[k]
    decreases cfg.rank[k]
  {
    var r :| r in cfg.fields[k].Reads() && z in {r} + Influences(cfg, r);
    if z != r {
      InfluencesSmaller(cfg, r, z);
    }
  }

  lemma {:induction false} EffectiveAllAt(cfg: Config, rows: map<Key, seq<Row>>, ks: seq<Key>, bound: nat, i: nat)
    requires cfg.WellFounded() && RowsReadable(cfg, rows) && i < |ks|
    requires forall k :: k in ks ==> k in cfg.fields && cfg.rank[k] < bound
    ensures i < |EffectiveAll(cfg, rows, ks, bound)|
    ensures EffectiveAll(cfg, rows, ks, bound)[i] == Effective(cfg, rows, ks[i])
    decreases |ks|
  {
    if i > 0 {
      EffectiveAllAt(cfg, rows, ks[1..], bound, i - 1);
    }
  }

  lemma {:induction false} EffectiveAllOnly(cfg: Config, rows: map<Key, seq<Row>>, ks: seq<Key>, bound: nat,
                                            o: Option<Value>)
    requires cfg.WellFounded() && RowsReadable(cfg, rows)
    requires forall k :: k in ks ==> k in cfg.fields && cfg.rank[k] < bound
    requires forall k :: k in ks ==> Effective(cfg, rows, k) != o
    ensures o !in EffectiveAll(cfg, rows, ks, bound)
    decreases |ks|
  {
    if ks == [] {
    } else {
      EffectiveAllOnly(cfg, rows, ks[1..], bound, o);
    }
  }

  /** With an empty database nothing is "b". */
  lemma {:induction false} NothingIsB(c: Config, k: Key)
    requires Sound(c) && Lettered(c) && k in c.fields
    ensures Effective(c, map[], k) != Some(B)
    ensures c.fields[k].default.Derived? ==> Effective(c, map[], k) == Some(A)
    decreases c.rank[k]
  {
    LettersClean(c, k);
    assert LetteredDefault(c.fields[k].default);
    if c.fields[k].default.Derived? {
      var needs := c.fields[k].Reads();
      forall r | r in needs ensures Effective(c, map[], r) != Some(B) {
        NothingIsB(c, r);
      }
      EffectiveAllOnly(c, map[], needs, c.rank[k], Some(B));
    }
  }

  /** Once z alone has a row, and that row says "b", so does everything z influences. */
  lemma {:induction false} BSpreads(c: Config, rows: map<Key, seq<Row>>, z: Key, k: Key)
    requires Sound(c) && Lettered(c) && k in c.fields && z in Influences(c, k)
    requires RowsReadable(c, rows) && forall j :: j in rows && rows[j] != [] ==> j == z
    requires z in c.fields && Effective(c, rows, z) == Some(B)
    ensures Effective(c, rows, k) == Some(B)
    decreases c.rank[k]
  {
    InfluencesSmaller(c, k, z);
    var r :| r in c.fields[k].Reads() && z in {r} + Influences(c, r);
    if r != z {
      BSpreads(c, rows, z, r);
    }
    BSpreadsOneStep(c, rows, r, k);
  }

  lemma BSpreadsOneStep(c: Config, rows: map<Key, seq<Row>>, r: Key, k: Key)
    requires Sound(c) && Lettered(c) && k in c.fields
    requires RowsReadable(c, rows) && (k !in rows || rows[k] == [])
    requires r in c.fields[k].Reads() && Effective(c, rows, r) == Some(B)
    ensures Effective(c, rows, k) == Some(B)
  {
    assert LetteredDefault(c.fields[k].default);
    var needs := c.fields[k].Reads();
    var i :| 0 <= i < |needs| && needs[i] == r;
    EffectiveAllAt(c, rows, needs, c.rank[k], i);
    assert Some(B) in EffectiveAll(c, rows, needs, c.rank[k]);
  }

  /** A live value that decodes is served, and stays as it is through any reads of other settings. */
  ghost predicate Served(cfg: Config, st: State, x: Key, v: Value)
    requires x in cfg.fields
  {
    st.LocalLive() && CacheLookup(cfg, st, x).Hit? && Decode(CacheLookup(cfg, st, x).v) == Some(v)
  }

  lemma {:induction false} ReadAllServes(cfg: Config, st: State, ks: seq<Key>, bound: nat, x: Key, v: Value)
    requires cfg.WellFounded() && RowsReadable(cfg, st.rows) && x in cfg.fields && Served(cfg, st, x, v)
    requires forall k :: k in ks ==> k in cfg.fields && cfg.rank[k] < bound
    ensures Served(cfg, ReadAll(cfg, st, ks, bound).1, x, v)
    decreases bound, 0, |ks|
  {
    if ks == [] {
    } else {
      LookupServes(cfg, st, ks[0], x, v);
      ReadAllServes(cfg, Lookup(cfg, st, ks[0]).1, ks[1..], bound, x, v);
    }
  }

  lemma {:induction false} FetchServes(cfg: Config, st: State, k: Key, x: Key, v: Value)
    requires cfg.WellFounded() && RowsReadable(cfg, st.rows) && k in cfg.fields && x in cfg.fields &&
             Served(cfg, st, x, v)
    ensures Served(cfg, Fetch(cfg, st, k).st, x, v)
    decreases cfg.rank[k], 2
  {
    match cfg.fields[k].default
    case NoDefault =>
    case Const(_) =>
    case Derived(needs, _) =>
      assert needs == cfg.fields[k].Reads();
      ReadAllServes(cfg, st, needs, cfg.rank[k], x, v);
  }

  lemma FillServes(cfg: Config, st: State, k: Key, id: Option<Option<nat>>, w: Value, x: Key, v: Value)
    requires k in cfg.fields && x in cfg.fields && k != x && Served(cfg, st, x, v)
    ensures Served(cfg, CacheSet(cfg, RememberId(st, k, id), k, w), x, v)
  {
  }

  lemma {:induction false} LookupServes(cfg: Config, st: State, k: Key, x: Key, v: Value)
    requires cfg.WellFounded() && RowsReadable(cfg, st.rows) && k in cfg.fields && x in cfg.fields &&
             Served(cfg, st, x, v)
    ensures Served(cfg, Lookup(cfg, st, k).1, x, v)
    ensures k == x ==> Lookup(cfg, st, k).0 == Got(v)
    decreases cfg.rank[k], 3
  {
    if k != x {
      FetchServes(cfg, st, k, x, v);
      var fetched := Fetch(cfg, st, k);
      var w := GetCacheValue(if fetched.value == Null then NOTSET else fetched.value);
      FillServes(cfg, fetched.st, k, fetched.id, w, x, v);
    }
  }

  lemma {:induction false} GetManyServes(cfg: Config, st: State, ks: seq<Key>, x: Key, v: Value)
    requires cfg.WellFounded() && RowsReadable(cfg, st.rows) && x in cfg.fields && Served(cfg, st, x, v)
    requires forall k :: k in ks ==> k in cfg.fields
    ensures Served(cfg, GetMany(cfg, st, ks), x, v)
    decreases |ks|
  {
    if ks == [] {
    } else {
      LookupServes(cfg, st, ks[0], x, v);
      GetManyServes(cfg, GetLocal(cfg, st, ks[0]).1, ks[1..], x, v);
    }
  }

  lemma SaveServes(cfg: Config, st: State, z: Key, id: nat, s: Stored, x: Key, v: Value)
    requires cfg.WellFounded() && RowsReadable(cfg, st.rows) && z in cfg.fields && RowReadable(cfg, z, Row(id, s))
    requires x in cfg.fields && Served(cfg, st, x, v) && x != z && z !in cfg.fields[x].dependsOn
    ensures Served(cfg, SaveRow(cfg, st, z, id, s), x, v)
  {
    var saved := PutFirst(cfg, st, z, id, s);
    var keys := [z] + Dependents(cfg, z, cfg.order);
    var dropped := saved.(cache := saved.cache - set k | k in keys);
    assert x !in keys;
    assert Served(cfg, dropped, x, v);
    GetManyServes(cfg, dropped, keys, x, v);
  }

  lemma CreateServes(cfg: Config, st: State, z: Key, w: Value, x: Key, v: Value)
    requires cfg.WellFounded() && RowsReadable(cfg, st.rows) && z in cfg.fields && cfg.Clean(z, w)
    requires x in cfg.fields && Served(cfg, st, x, v) && x != z && z !in cfg.fields[x].dependsOn
    ensures Served(cfg, CreateRow(cfg, st, z, w), x, v)
  {
    var st1 := TakeId(st);
    if cfg.fields[z].encrypted {
      SaveServes(cfg, st1, z, st.nextId, Plain(Text("")), x, v);
      st1 := SaveRow(cfg, st1, z, st.nextId, Plain(Text("")));
    }
    SaveServes(cfg, st1, z, st.nextId, StoredForm(cfg, z, st.nextId, w), x, v);
  }

  const EMPTY_STATE := State(0, 1, map[], map[], map[], None, None)

  lemma FirstReadCaches(cfg: Config, x: Key, v: Value)
    requires Sound(cfg) && x in cfg.fields && Effective(cfg, map[], x) == Some(v)
    ensures var st1 := GetLocal(cfg, EMPTY_STATE, x).1;
            Served(cfg, st1, x, v) && st1.rows == map[]
  {
    var st := EMPTY_STATE;
    assert Coherent(cfg, st);
    PreloadAgrees(cfg, st);
    LookupAgrees(cfg, Preload(cfg, st), x);
    CachedAgrees(cfg, GetLocal(cfg, st, x).1, x);
    EffectiveClean(cfg, map[], x);
    MarkerRoundTrip(cfg, x, Some(v));
  }

  /** If depends_on of x misses z, then, with these defaults over the same settings, reading x,
      assigning z and reading x again serves a value x no longer has. */
  lemma MissedDependencyGoesStale(c: Config, x: Key, z: Key)
    requires Sound(c) && Lettered(c) && x in c.fields && z in Influences(c, x)
    requires z in c.fields && !c.fields[z].readOnly && z !in c.fields[x].dependsOn
    ensures !ServesTruth(c)
  {
    InfluencesSmaller(c, x, z);
    LettersClean(c, z);
    NothingIsB(c, x);
    FirstReadCaches(c, x, A);
    AssignedLater(c, x, z, GetLocal(c, EMPTY_STATE, x).1);
  }

  lemma AssignedLater(c: Config, x: Key, z: Key, st1: State)
    requires Sound(c) && Lettered(c) && x in c.fields && z in Influences(c, x)
    requires z in c.fields && x != z && !c.fields[z].readOnly && z !in c.fields[x].dependsOn
    requires c.Clean(z, B) && A != B
    requires st1 == GetLocal(c, EMPTY_STATE, x).1 && st1.rows == map[] && Served(c, st1, x, A)
    ensures !ServesTruth(c)
  {
    var st2 := CreateRow(c, st1, z, B);
    CreatedStale(c, x, z, st1);
    StaleRun(c, x, z, st1, st2);
  }

  lemma CreatedStale(c: Config, x: Key, z: Key, st1: State)
    requires Sound(c) && Lettered(c) && x in c.fields && z in Influences(c, x)
    requires z in c.fields && x != z && !c.fields[z].readOnly && z !in c.fields[x].dependsOn
    requires c.Clean(z, B) && A != B && RowsReadable(c, st1.rows) && st1.rows == map[] && Served(c, st1, x, A)
    ensures var st2 := CreateRow(c, st1, z, B);
            st2.LocalLive() && Lookup(c, st2, x).0 == Got(A) && Effective(c, st2.rows, x) == Some(B)
  {
    CreateServes(c, st1, z, B, x, A);
    CreatedRow(c, st1, z, B);
    var st2 := CreateRow(c, st1, z, B);
    LookupServes(c, st2, x, x, A);
    BSpreads(c, st2.rows, z, x);
  }

  lemma StaleRun(cfg: Config, x: Key, z: Key, st1: State, st2: State)
    requires Sound(cfg) && x in cfg.fields && z in cfg.fields && !cfg.fields[z].readOnly && cfg.Clean(z, B)
    requires st1 == GetLocal(cfg, EMPTY_STATE, x).1 && st1.rows == map[] && SetLocal(cfg, st1, z, B) == Some(st2)
    requires RowsReadable(cfg, st2.rows)
    requires st2.LocalLive() && Lookup(cfg, st2, x).0 != Expected(Effective(cfg, st2.rows, x))
    ensures !ServesTruth(cfg)
  {
    RunCons(cfg, st1, Set(z, B), []);
    RunCons(cfg, EMPTY_STATE, Get(x), [Set(z, B)] + []);
    RunIsStale(cfg, x, [Get(x)] + ([Set(z, B)] + []));
  }

  lemma RunIsStale(cfg: Config, x: Key, ops: seq<Op>)
    requires Sound(cfg) && x in cfg.fields && forall op :: op in ops ==> Allowed(cfg, op)
    requires Run(cfg, EMPTY_STATE, ops).LocalLive()
    requires Lookup(cfg, Run(cfg, EMPTY_STATE, ops),
                    x).0 != Expected(Effective(cfg, Run(cfg, EMPTY_STATE, ops).rows, x))
    ensures !ServesTruth(cfg)
  {
    var st := Run(cfg, EMPTY_STATE, ops);
    assert GetLocal(cfg, st, x) == Lookup(cfg, st, x);
    assert Cold(cfg, EMPTY_STATE);
  }

  lemma CreatedRow(cfg: Config, st: State, z: Key, w: Value)
    requires cfg.WellFounded() && RowsReadable(cfg, st.rows) && z in cfg.fields && cfg.Clean(z, w)
    requires !cfg.fields[z].readOnly && st.rows == map[]
    ensures CreateRow(cfg, st, z, w).rows.Keys == {z}
    ensures Effective(cfg, CreateRow(cfg, st, z, w).rows, z) == Some(w)
  {
  }

  /** The cache serves the truth for every choice of defaults exactly when depends_on is complete. */
  lemma CoverageExact(cfg: Config)
    requires Sound(cfg)
    ensures Covered(cfg) <==>
            forall c: Config :: SameShape(cfg, c) && Sound(c) ==> ServesTruth(c)
  {
    if Covered(cfg) {
      forall c: Config | SameShape(cfg, c) && Sound(c) ensures ServesTruth(c) {
        forall k | k in cfg.fields ensures Influences(cfg, k) == Influences(c, k) {
          InfluencesSameShape(cfg, c, k);
        }
        assert Covered(c);
        forall st: State, ops: seq<Op>, k: Key |
          Cold(c, st) && k in c.fields && (forall op :: op in ops ==> Allowed(c, op))
          ensures GetLocal(c, Run(c, st, ops), k).0 == Expected(Effective(c, Run(c, st, ops).rows, k))
        {
          CacheAgreesWithDatabase(c, st, ops, k);
        }
      }
    } else {
      var x, z :| x in cfg.fields && z in Influences(cfg, x) && z in cfg.fields && !cfg.fields[z].readOnly &&
                  z !in cfg.fields[x].dependsOn;
      var c := Letter(cfg);
      LetteredSound(cfg, c);
      InfluencesSameShape(cfg, c, x);
      MissedDependencyGoesStale(c, x, z);
    }
  }
}
