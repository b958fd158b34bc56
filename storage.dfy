/**
 * The storage adapter: the list of weeks is kept as text under one key of the
 * browser's key/value store.  The JSON codec is a parameter: `encode` stands
 * for `JSON.stringify` and `decode` for `JSON.parse`, with `None` where
 * parsing throws.
 */
module Storage {
  import opened Wrappers
  import opened Overtime

  const STORAGE_KEY: string := "timetracker_weeks"

  datatype Codec = Codec(encode: seq<WeekEntry> -> string, decode: string -> Option<seq<WeekEntry>>)

  /**
   * What the adapter relies on for one list: its text is not empty, and
   * parsing that text gives the list back.  Only the lists actually saved
   * need to round-trip, as JSON does for the values the app stores.
   */
  predicate RoundTrips(codec: Codec, weeks: seq<WeekEntry>) {
    codec.encode(weeks) != "" && codec.decode(codec.encode(weeks)) == Some(weeks)
  }

  /** The browser's key/value store (`localStorage`). */
  class LocalStorage {
    var items: map<string, string>

    constructor (items: map<string, string>)
      ensures this.items == items
    {
      this.items := items;
    }

    /** `getItem(key)`: `None` stands for `null`. */
    function GetItem(key: string): (r: Option<string>)
      reads this
      ensures r.Some? <==> key in items
      ensures r.Some? ==> r.value == items[key]
    {
      if key in items then Some(items[key]) else None
    }

    /** `setItem(key, value)`. */
    method SetItem(key: string, value: string)
      modifies this
      ensures items == old(items)[key := value]
    {
      items := items[key := value];
    }
  }

  /**
   * `loadWeeks()` on the store's contents: a missing (`null`) or empty value
   * loads as the empty list, and so does text that does not parse; loading
   * never fails.
   */
  function LoadFrom(items: map<string, string>, codec: Codec): (weeks: seq<WeekEntry>)
    ensures STORAGE_KEY !in items ==> weeks == []
    ensures STORAGE_KEY in items && items[STORAGE_KEY] == "" ==> weeks == []
    ensures STORAGE_KEY in items && codec.decode(items[STORAGE_KEY]).None? ==> weeks == []
    ensures STORAGE_KEY in items && items[STORAGE_KEY] != "" && codec.decode(items[STORAGE_KEY]).Some? ==>
      weeks == codec.decode(items[STORAGE_KEY]).value
  {
    var data := if STORAGE_KEY in items then Some(items[STORAGE_KEY]) else None;
    if data.None? || data.value == "" then []
    else codec.decode(data.value).GetOr([])
  }

  /** `loadWeeks()` on the store object: a function, so it reads the store and changes nothing. */
  function LoadWeeks(store: LocalStorage, codec: Codec): (weeks: seq<WeekEntry>)
    reads store
    ensures store.GetItem(STORAGE_KEY).None? ==> weeks == []
    ensures store.GetItem(STORAGE_KEY) == Some("") ==> weeks == []
    ensures store.GetItem(STORAGE_KEY).Some? && codec.decode(store.GetItem(STORAGE_KEY).value).None? ==> weeks == []
    ensures store.GetItem(STORAGE_KEY).Some? && store.GetItem(STORAGE_KEY).value != "" && codec.decode(store.GetItem(STORAGE_KEY).value).Some? ==>
      weeks == codec.decode(store.GetItem(STORAGE_KEY).value).value
  {
    LoadFrom(store.items, codec)
  }

  /** `saveWeeks(weeks)`: writes the encoded list under the storage key and nothing else. */
  method SaveWeeks(store: LocalStorage, codec: Codec, weeks: seq<WeekEntry>)
    modifies store
    ensures store.items == old(store.items)[STORAGE_KEY := codec.encode(weeks)]
    ensures forall k :: k != STORAGE_KEY ==> (k in store.items <==> k in old(store.items))
    ensures forall k :: k != STORAGE_KEY && k in old(store.items) ==> store.items[k] == old(store.items)[k]
  {
    store.SetItem(STORAGE_KEY, codec.encode(weeks));
  }

  /** What was saved is what loads, whatever else the store holds. */
  lemma SaveThenLoad(items: map<string, string>, codec: Codec, weeks: seq<WeekEntry>)
    requires RoundTrips(codec, weeks)
    ensures LoadFrom(items[STORAGE_KEY := codec.encode(weeks)], codec) == weeks
  {
  }

  /** Saving only touches the storage key: loading other data is unaffected by it. */
  lemma SaveKeepsOtherKeys(items: map<string, string>, codec: Codec, weeks: seq<WeekEntry>, k: string)
    requires k != STORAGE_KEY
    ensures k in items[STORAGE_KEY := codec.encode(weeks)] <==> k in items
    ensures k in items ==> items[STORAGE_KEY := codec.encode(weeks)][k] == items[k]
  {
  }
}
