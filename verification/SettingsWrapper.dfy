/** The settings wrapper as it runs: one object whose fields each operation updates step by step.
    Every method is proved to do exactly what the corresponding function of SettingsCache does. */
module SettingsWrapper {
  import opened Wrappers
  import opened SettingValues
  import opened SettingsCache
  import opened SettingsSecrecy

  lemma OneMoreEntry(cfg: Config, st: State, values: map<Key, Value>, todo: set<Key>, k: Key)
    requires values.Keys <= cfg.fields.Keys && todo <= values.Keys && k in todo
    ensures CacheSet(cfg, st.(cache := st.cache + EntriesFor(cfg, st, values, todo)), k, values[k]) ==
            st.(cache := st.cache + EntriesFor(cfg, st, values, todo - {k}))
  {
    var now := st.(cache := st.cache + EntriesFor(cfg, st, values, todo));
    assert EntryFor(cfg, now, k, values[k]) == EntryFor(cfg, st, k, values[k]);
    assert (st.cache + EntriesFor(cfg, st, values, todo))[k := EntryFor(cfg, st, k, values[k])] ==
           st.cache + EntriesFor(cfg, st, values, todo - {k});
  }

  class Wrapper {
    const cfg: Config
    var now: nat
    var nextId: nat
    var rows: map<Key, seq<Row>>
    var cache: map<Key, Entry>
    var ids: map<Key, IdEntry>
    var localExpires: Option<nat>
    var sharedExpires: Option<nat>

    function View(): State
      reads this
    {
      State(now, nextId, rows, cache, ids, localExpires, sharedExpires)
    }

    ghost predicate Ready()
      reads this
    {
      cfg.WellFounded() && RowsReadable(cfg, rows)
    }

    constructor (cfg: Config, st: State)
      ensures this.cfg == cfg && View() == st
    {
      this.cfg := cfg;
      now, nextId, rows, cache, ids := st.now, st.nextId, st.rows, st.cache, st.ids;
      localExpires, sharedExpires := st.localExpires, st.sharedExpires;
    }

    // ---- the encrypting cache proxy

    method ObjectId(k: Key) returns (id: Option<nat>)
      requires k in cfg.fields
      ensures id == LookupId(cfg, View(), k)
    {
      if k in ids && now < ids[k].expires {
        return ids[k].id;
      }
      if !cfg.fields[k].readOnly && k in rows && rows[k] != [] {
        return Some(rows[k][0].id);
      }
      return None;
    }

    method ProxyGet(k: Key) returns (r: CacheGet)
      requires k in cfg.fields
      ensures r == CacheLookup(cfg, View(), k)
    {
      if k !in cache || now >= cache[k].expires {
        return Miss;
      }
      var item := cache[k].item;
      if cfg.fields[k].encrypted {
        var id := ObjectId(k);
        var plain := DecryptField(id, item);
        return if plain.None? then BadToken else Hit(plain.value);
      }
      return Hit(item.v);
    }

    method ProxySet(k: Key, v: Value)
      requires k in cfg.fields
      modifies this`cache
      ensures View() == CacheSet(cfg, old(View()), k, v)
    {
      var item := Plain(v);
      if cfg.fields[k].encrypted {
        var id := ObjectId(k);
        item := EncryptField(id, v);
      }
      cache := cache[k := Entry(item, now + SETTING_CACHE_TIMEOUT)];
    }

    // ---- reads

    method ReadMany(ks: seq<Key>, ghost bound: nat) returns (args: seq<Option<Value>>)
      requires Ready() && forall k :: k in ks ==> k in cfg.fields && cfg.rank[k] < bound
      modifies this
      ensures (args, View()) == ReadAll(cfg, old(View()), ks, bound) && Ready()
      decreases bound, 0
    {
      args := [];
      var i := 0;
      ghost var all := ReadAll(cfg, View(), ks, bound);
      while i < |ks|
        invariant 0 <= i <= |ks| && Ready()
        invariant var rest := ReadAll(cfg, View(), ks[i..], bound);
                  all.0 == args + rest.0 && all.1 == rest.1
      {
        assert ks[i] in ks && ks[i..][1..] == ks[i + 1..];
        ghost var before := args;
        var r := LookupSetting(ks[i]);
        args := args + [r.ToOption()];
        i := i + 1;
        ghost var rest := ReadAll(cfg, View(), ks[i..], bound).0;
        assert before + ([r.ToOption()] + rest) == args + rest;
      }
      assert ks[i..] == [] && args + [] == args;
    }

    method GetDefault(k: Key) returns (v: Value)
      requires Ready() && k in cfg.fields
      modifies this
      ensures (v, View()) == DefaultValue(cfg, old(View()), k) && Ready()
      decreases cfg.rank[k], 1
    {
      match cfg.fields[k].default
      case NoDefault => v := NOTSET;
      case Const(c) => v := c;
      case Derived(needs, f) =>
        assert needs == cfg.fields[k].Reads();
        var args := ReadMany(needs, cfg.rank[k]);
        v := f(args);
    }

    method FetchSetting(k: Key) returns (v: Value, id: Option<Option<nat>>)
      requires Ready() && k in cfg.fields
      modifies this
      ensures Fetched(v, id, View()) == Fetch(cfg, old(View()), k)
      decreases cfg.rank[k], 2
    {
      id := None;
      var field := cfg.fields[k];
      if field.ReadsRows() && k in rows && rows[k] != [] {
        var row := rows[k][0];
        v := RowValue(cfg, k, row);
        if field.encrypted {
          id := Some(Some(row.id));
        }
      } else {
        v := GetDefault(k);
        if field.encrypted && !field.default.NoDefault? {
          id := Some(None);
        }
      }
    }

    method LookupSetting(k: Key) returns (r: Outcome)
      requires Ready() && k in cfg.fields
      modifies this
      ensures (r, View()) == Lookup(cfg, old(View()), k) && Ready()
      decreases cfg.rank[k], 3
    {
      var cached := ProxyGet(k);
      if cached.BadToken? {
        return InvalidToken;
      }
      if cached.Hit? && Decode(cached.v).Some? {
        return Got(Decode(cached.v).value);
      }
      var v, id := FetchSetting(k);
      if v == Null {
        v := NOTSET;
      }
      if cached != Hit(v) {
        if id.Some? {
          ids := ids[k := IdEntry(id.value, now + DEFAULT_CACHE_TIMEOUT)];
        }
        ProxySet(k, GetCacheValue(v));
      }
      return if v == NOTSET then NotSet else Got(v);
    }

    // ---- preload

    method ScanSetting(k: Key) returns (v: Value, id: Option<Option<nat>>)
      requires Ready() && k in cfg.fields
      ensures Scanned(v, id) == ScanRows(cfg, k, View().RowsOf(k), None)
    {
      v, id := NOTSET, None;
      var found := View().RowsOf(k);
      var i := 0;
      while i < |found| && v == NOTSET
        invariant 0 <= i <= |found|
        invariant ScanRows(cfg, k, found, None) ==
                  if v == NOTSET then ScanRows(cfg, k, found[i..], id) else Scanned(v, id)
      {
        assert found[i] in found && found[i..][1..] == found[i + 1..];
        id := if cfg.fields[k].encrypted then Some(Some(found[i].id)) else None;
        v := GetCacheValue(RowValue(cfg, k, found[i]));
        i := i + 1;
      }
    }

    method PreloadSetting(k: Key) returns (v: Value, id: Option<Option<nat>>)
      requires Ready() && k in cfg.fields
      modifies this
      ensures Fetched(v, id, View()) == PreloadOne(cfg, old(View()), k) && Ready()
    {
      v, id := ScanSetting(k);
      if v == NOTSET && !cfg.fields[k].default.NoDefault? {
        var d := GetDefault(k);
        v := GetCacheValue(d);
        if cfg.fields[k].encrypted {
          id := Some(None);
        }
      }
    }

    method GatherSettings() returns (settingsToCache: map<Key, Value>, settingIds: map<Key, Option<nat>>)
      requires Ready()
      modifies this
      ensures Gathered(settingsToCache, settingIds, View()) == Gather(cfg, Gathered(map[], map[], old(View())),
                                                                      cfg.order)
      ensures Ready()
    {
      settingsToCache, settingIds := map[], map[];
      ghost var g0 := Gathered(map[], map[], View());
      var i := 0;
      while i < |cfg.order|
        invariant 0 <= i <= |cfg.order| && Ready()
        invariant Gather(cfg, g0, cfg.order) ==
                  Gather(cfg, Gathered(settingsToCache, settingIds, View()), cfg.order[i..])
      {
        var k := cfg.order[i];
        assert k in cfg.order && cfg.order[i..][1..] == cfg.order[i + 1..];
        if cfg.fields[k].ReadsRows() {
          var v, id := PreloadSetting(k);
          settingsToCache := settingsToCache[k := v];
          if id.Some? {
            settingIds := settingIds[k := id.value];
          }
        }
        i := i + 1;
      }
    }

    method PreloadCache()
      requires Ready()
      modifies this
      ensures View() == Preload(cfg, old(View())) && Ready()
    {
      if localExpires.Some? && localExpires.value > now {
        return;
      }
      localExpires := Some(now + SETTING_CACHE_TIMEOUT);
      if sharedExpires.Some? && now < sharedExpires.value {
        return;
      }
      FillFromDatabase();
    }

    /** What follows the two timers. */
    method FillFromDatabase()
      requires Ready()
      modifies this
      ensures Ready()
      ensures var g := Gather(cfg, Gathered(map[], map[], old(View())), cfg.order);
              g.values.Keys <= cfg.fields.Keys && View() == StoreAll(cfg, g.st, g.values, g.ids)
    {
      GatheredKeys(cfg, Gathered(map[], map[], View()), cfg.order);
      var settingsToCache, settingIds := GatherSettings();
      StoreGathered(settingsToCache, settingIds);
    }

    method StoreGathered(values: map<Key, Value>, newIds: map<Key, Option<nat>>)
      requires values.Keys <= cfg.fields.Keys
      modifies this`ids, this`cache, this`sharedExpires
      ensures View() == StoreAll(cfg, old(View()), values, newIds)
    {
      SetIds(newIds);
      SetMany(values);
      sharedExpires := Some(now + SETTING_CACHE_TIMEOUT);
    }

    method SetIds(newIds: map<Key, Option<nat>>)
      modifies this`ids
      ensures View() == StoreIds(old(View()), newIds)
    {
      var todo := newIds.Keys;
      while todo != {}
        invariant todo <= newIds.Keys
        invariant ids == old(ids) + IdsFor(now, newIds, todo)
      {
        var k :| k in todo;
        todo := todo - {k};
        ids := ids[k := IdEntry(newIds[k], now + DEFAULT_CACHE_TIMEOUT)];
      }
    }

    method SetMany(values: map<Key, Value>)
      requires values.Keys <= cfg.fields.Keys
      modifies this`cache
      ensures View() == StoreValues(cfg, old(View()), values)
    {
      ghost var st1 := View();
      var todo := values.Keys;
      while todo != {}
        invariant todo <= values.Keys
        invariant View() == st1.(cache := st1.cache + EntriesFor(cfg, st1, values, todo))
      {
        var k :| k in todo;
        OneMoreEntry(cfg, st1, values, todo, k);
        ProxySet(k, values[k]);
        todo := todo - {k};
      }
    }

    method GetLocalValue(k: Key) returns (r: Outcome)
      requires Ready() && k in cfg.fields
      modifies this
      ensures (r, View()) == GetLocal(cfg, old(View()), k) && Ready()
    {
      PreloadCache();
      r := LookupSetting(k);
    }

    // ---- writes

    method OnSettingChange(key: Key)
      requires Ready() && key in cfg.fields
      modifies this
      ensures View() == HandleSettingChange(cfg, old(View()), key) && Ready()
    {
      var keys := [key] + Dependents(cfg, key, cfg.order);
      cache := cache - set k | k in keys;
      AnnounceAll(keys);
    }

    /** The change signal of each setting carries its value, so each is read. */
    method AnnounceAll(keys: seq<Key>)
      requires Ready() && forall k :: k in keys ==> k in cfg.fields
      modifies this
      ensures View() == GetMany(cfg, old(View()), keys) && Ready()
    {
      ghost var st := View();
      var i := 0;
      while i < |keys|
        invariant 0 <= i <= |keys| && Ready()
        invariant GetMany(cfg, st, keys) == GetMany(cfg, View(), keys[i..])
      {
        assert keys[i] in keys && keys[i..][1..] == keys[i + 1..];
        var _ := GetLocalValue(keys[i]);
        i := i + 1;
      }
    }

    method Save(k: Key, id: nat, s: Stored)
      requires Ready() && k in cfg.fields && RowReadable(cfg, k, Row(id, s))
      modifies this
      ensures View() == SaveRow(cfg, old(View()), k, id, s) && Ready()
    {
      var later := if k in rows && rows[k] != [] then rows[k][1..] else [];
      rows := rows[k := [Row(id, s)] + later];
      OnSettingChange(k);
    }

    method Create(k: Key, v: Value)
      requires Ready() && k in cfg.fields && cfg.Assignable(k, v)
      modifies this
      ensures View() == CreateRow(cfg, old(View()), k, v) && Ready()
      ensures cfg.fields[k].encrypted && v.Text? && v.text != "" ==> FirstRowHides(View(), k, v)
    {
      if cfg.fields[k].encrypted && v.Text? && v.text != "" {
        CreatedHidden(cfg, View(), k, v);
      }
      var id := NewId();
      SaveFirst(k, id);
      SaveValue(k, id, v);
    }

    method NewId() returns (id: nat)
      modifies this`nextId
      ensures id == old(nextId) && View() == TakeId(old(View()))
    {
      id := nextId;
      nextId := nextId + 1;
    }

    method SaveValue(k: Key, id: nat, v: Value)
      requires Ready() && k in cfg.fields && cfg.Assignable(k, v)
      modifies this
      ensures View() == SaveRow(cfg, old(View()), k, id, StoredForm(cfg, k, id, v)) && Ready()
    {
      Save(k, id, StoredForm(cfg, k, id, v));
    }

    /** The first save of a new encrypted row. */
    method SaveFirst(k: Key, id: nat)
      requires Ready() && k in cfg.fields
      modifies this
      ensures Ready()
      ensures View() == SaveEmpty(cfg, old(View()), k, id)
    {
      if cfg.fields[k].encrypted {
        Save(k, id, Plain(Text("")));
      }
    }

    /** False is the error raised for a read-only setting. */
    method SetLocalValue(k: Key, v: Value) returns (ok: bool)
      requires Ready() && k in cfg.fields && cfg.Assignable(k, v)
      modifies this
      ensures ok <==> SetLocal(cfg, old(View()), k, v).Some?
      ensures View() == if ok then SetLocal(cfg, old(View()), k, v).value else old(View())
      ensures ok <==> !cfg.fields[k].readOnly
      ensures ok && cfg.fields[k].encrypted && v.Text? && v.text != "" ==>
                (FirstRowHides(View(), k, v) <==>
                 !(old(View()).RowsOf(k) != [] && old(View()).RowsOf(k)[0].stored == Plain(v)))
    {
      if cfg.fields[k].encrypted && !cfg.fields[k].readOnly && v.Text? && v.text != "" {
        AssignedHiddenExactly(cfg, View(), k, v);
      }
      if cfg.fields[k].readOnly {
        return false;
      }
      if k !in rows || rows[k] == [] {
        Create(k, v);
      } else if rows[k][0].stored != Plain(v) {
        Save(k, rows[k][0].id, StoredForm(cfg, k, rows[k][0].id, v));
      }
      return true;
    }

    method DelLocalValue(k: Key) returns (ok: bool)
      requires Ready() && k in cfg.fields
      modifies this
      ensures ok <==> DelLocal(cfg, old(View()), k).Some?
      ensures View() == if ok then DelLocal(cfg, old(View()), k).value else old(View())
      ensures ok <==> !cfg.fields[k].readOnly
      ensures ok ==> View().RowsOf(k) == []
    {
      if cfg.fields[k].readOnly {
        return false;
      }
      while k in rows && rows[k] != []
        invariant Ready()
        invariant DeleteRows(cfg, old(View()), k) == DeleteRows(cfg, View(), k)
        decreases |View().RowsOf(k)|
      {
        rows := rows[k := rows[k][1..]];
        OnSettingChange(k);
      }
      return true;
    }
  }
}
