/** The values of settings, and how they are encoded in the cache. */
module SettingValues {
  import opened Wrappers

  type Key = string

  // ---------------------------------------------------------------- cache encodings

  datatype Value =
    | Null
    | Text(text: string)
    | Number(n: int)
    | ListOf(items: seq<Value>)
    | DictOf(entries: seq<(string, Value)>)

  const NOTSET := Text("___notset___")
  const EMPTY_LIST := Text("___[]___")
  const EMPTY_DICT := Text("___{}___")
  const ENCRYPTED_PREFIX := "$encrypted$"

  const SETTING_CACHE_TIMEOUT: nat := 60
  const DEFAULT_CACHE_TIMEOUT: nat := 300   // the cache back end's own default, used for row ids

  function GetCacheValue(v: Value): Value {
    if v == Null then NOTSET
    else if v == ListOf([]) then EMPTY_LIST
    else if v == DictOf([]) then EMPTY_DICT
    else v
  }

  /** What a read makes of a cached value; None sends it on to the database. */
  function Decode(c: Value): Option<Value> {
    if c == NOTSET then None
    else if c == EMPTY_LIST then Some(ListOf([]))
    else if c == EMPTY_DICT then Some(DictOf([]))
    else Some(c)
  }

  /** Null and the empty collections have markers of their own; everything else stands for itself. */
  lemma EncodesExactly(v: Value)
    ensures GetCacheValue(Null) == Text("___notset___")
    ensures GetCacheValue(ListOf([])) == Text("___[]___") && GetCacheValue(DictOf([])) == Text("___{}___")
    ensures v != Null && v != ListOf([]) && v != DictOf([]) ==> GetCacheValue(v) == v
  {
  }

  /** Neither null nor one of the marker strings. */
  predicate Storable(v: Value) {
    v != Null && v != NOTSET && v != EMPTY_LIST && v != EMPTY_DICT
  }
}
