/**
 * The cache adapter App hands to every page (src/App.jsx:43-65): it resolves
 * the key and the ttl before writing, turns a hit into a fresh object tagged
 * `_cached` and `_timestamp`, and keeps the item count the status bar shows.
 */
module App {
  import opened Js
  import opened CacheManager

  /** The `options` argument of updateCache; None is a property left out. */
  datatype CacheOptions = CacheOptions(ttl: Option<int>, key: Option<string>)

  /** `const { key = section } = options`: only a missing key falls back to the section. */
  function ResolveKey(section: string, options: CacheOptions): string {
    if options.key.Some? then options.key.value else section
  }

  /** `ttl || CACHE_TTLS.ASSETS`: a missing or zero ttl becomes one hour. */
  function ResolveTtl(options: CacheOptions): (t: int)
    ensures t != 0
    ensures options.ttl.Some? && options.ttl.value != 0 ==> t == options.ttl.value
    ensures options.ttl.None? || options.ttl.value == 0 ==> t == ASSETS_TTL
  {
    if options.ttl.Some? && options.ttl.value != 0 then options.ttl.value else ASSETS_TTL
  }

  /**
   * What getCache makes of the store's answer: null for a miss, otherwise
   * `{ ...data, _cached: true, _timestamp: timestamp }`.
   */
  function Wrap(hit: Option<Hit>): (r: Json)
    ensures r.JNull? <==> hit.None?
    ensures hit.Some? ==> r.JObj?
  {
    match hit
    case None => JNull
    case Some(h) =>
      JObj(DefineProp(DefineProp(OwnEntries(h.data), "_cached", JBool(true)), "_timestamp", JNum(h.timestamp)))
  }

  /**
   * Reading the wrapped object: `_cached` is true, `_timestamp` is the write
   * time, and every other property is the payload's own.
   */
  lemma WrapProps(h: Hit, name: string)
    ensures FindProp(Wrap(Some(h)).fields, name)
      == if name == "_timestamp" then Some(JNum(h.timestamp))
         else if name == "_cached" then Some(JBool(true))
         else FindProp(OwnEntries(h.data), name)
  {
    var own := OwnEntries(h.data);
    var inner := DefineProp(own, "_cached", JBool(true));
    FindDefined(inner, "_timestamp", JNum(h.timestamp), name);
    FindDefined(own, "_cached", JBool(true), name);
  }

  /** The two properties getCache adds after the payload's own, in this order. */
  function Markers(ts: int): (ms: seq<(string, Json)>)
    ensures |ms| == 2 && forall i :: 0 <= i < 2 ==> IsMarked(ms[i].0)
  {
    [("_cached", JBool(true)), ("_timestamp", JNum(ts))]
  }

  /**
   * An array payload comes back as an object: its index keys "0".."n-1" in
   * order, then the two markers.
   */
  lemma WrapArray(xs: seq<Json>, stale: bool, ts: int)
    ensures Wrap(Some(Hit(JArr(xs), stale, ts))) == JObj(IndexEntries(xs) + Markers(ts))
  {
    IndexEntriesUnmarked(xs);
    AppendMarkers(IndexEntries(xs), ts);
  }

  /** An object payload with no marked key keeps its entries, then gains the two markers. */
  lemma WrapObject(fs: seq<(string, Json)>, stale: bool, ts: int)
    requires forall i :: 0 <= i < |fs| ==> !IsMarked(fs[i].0)
    ensures Wrap(Some(Hit(JObj(fs), stale, ts))) == JObj(fs + Markers(ts))
  {
    AppendMarkers(fs, ts);
  }

  /** No index key is a marked key. */
  lemma IndexEntriesUnmarked(xs: seq<Json>)
    ensures forall i :: 0 <= i < |xs| ==> !IsMarked(IndexEntries(xs)[i].0)
  {
    forall i | 0 <= i < |xs| ensures !IsMarked(IndexEntries(xs)[i].0) {
      IndexKeysAreNotMarked(i);
    }
  }

  /** Over entries with no marked key, the two markers land at the end, in this order. */
  lemma AppendMarkers(fs: seq<(string, Json)>, ts: int)
    requires forall i :: 0 <= i < |fs| ==> !IsMarked(fs[i].0)
    ensures DefineProp(DefineProp(fs, "_cached", JBool(true)), "_timestamp", JNum(ts)) == fs + Markers(ts)
  {
    DefineTwoNew(fs, "_cached", JBool(true), "_timestamp", JNum(ts));
  }

  /**
   * The wrapped object lists its properties in the order JavaScript would
   * enumerate them, so the pages' `Object.entries`/`Object.values` see
   * exactly this list.
   */
  lemma WrapCanonical(h: Hit)
    requires h.data.JObj? ==> Canonical(h.data.fields)
    requires h.data.JArr? ==> |h.data.items| <= MAX_INDEX
    requires h.data.JStr? ==> |h.data.s| <= MAX_INDEX
    ensures Canonical(Wrap(Some(h)).fields)
  {
    OwnEntriesCanonical(h.data);
    DefinePropCanonical(OwnEntries(h.data), "_cached", JBool(true));
    DefinePropCanonical(DefineProp(OwnEntries(h.data), "_cached", JBool(true)), "_timestamp", JNum(h.timestamp));
  }

  /** The cache context: the shared store and the `cacheStats.totalItems` state. */
  class CacheContext {
    const manager: Cache
    var totalItems: int

    ghost predicate Valid()
      reads this, manager
    {
      manager.Valid()
    }

    /** App mounts with `totalItems: 0` over the store created at module load. */
    constructor (manager: Cache)
      requires manager.Valid()
      ensures Valid()
      ensures this.manager == manager && totalItems == 0
    {
      this.manager := manager;
      totalItems := 0;
    }

    /** The stats effect and its interval: recount the keys. */
    method UpdateStats()
      requires Valid()
      modifies this
      ensures Valid()
      ensures totalItems == |manager.GetAllKeys()|
    {
      totalItems := |manager.GetAllKeys()|;
    }

    method UpdateCache(section: string, data: Json, options: CacheOptions, now: int, writeOk: bool)
      requires Valid()
      modifies this, manager
      ensures Valid()
      ensures manager.cache == Put(old(manager.cache), ResolveKey(section, options), Entry(data, now, ResolveTtl(options)))
      ensures manager.stored == if writeOk then Some(Serialize(manager.cache)) else old(manager.stored)
      ensures manager.cache.entries[ResolveKey(section, options)].ttl != 0
      ensures totalItems == |manager.GetAllKeys()|
    {
      var key := ResolveKey(section, options);
      var ttl := ResolveTtl(options);
      manager.Set(key, data, Some(ttl), now, writeOk);
      totalItems := |manager.GetAllKeys()|;
    }

    /** null exactly for a missing key; staleness plays no part in the answer. */
    function GetCache(key: string, now: int): (r: Json)
      reads manager
      ensures r.JNull? <==> key !in manager.cache.entries
      ensures key in manager.cache.entries ==>
        var e := manager.cache.entries[key];
        r == Wrap(Some(Hit(e.data, false, e.timestamp))) && r == Wrap(Some(Hit(e.data, true, e.timestamp)))
    {
      Wrap(manager.Get(key, now))
    }

    predicate IsCacheStale(key: string, now: int)
      reads manager
      ensures IsCacheStale(key, now) <==>
        key !in manager.cache.entries || now - manager.cache.entries[key].timestamp > manager.cache.entries[key].ttl
    {
      manager.IsStale(key, now)
    }

    method ClearCache(key: string, writeOk: bool)
      requires Valid()
      modifies this, manager
      ensures Valid()
      ensures manager.cache == Delete(old(manager.cache), key)
      ensures manager.stored == if writeOk then Some(Serialize(manager.cache)) else old(manager.stored)
      ensures totalItems == |manager.GetAllKeys()|
    {
      manager.Clear(key, writeOk);
      totalItems := |manager.GetAllKeys()|;
    }

    /**
     * When `clearAll` throws, the exception leaves before `setCacheStats`, so
     * the count keeps its old value although the map is empty.
     */
    method ClearAllCache(removeOk: bool)
      requires Valid()
      modifies this, manager
      ensures Valid()
      ensures manager.cache == EmptyStore() && manager.GetAllKeys() == []
      ensures manager.stored == if removeOk then None else old(manager.stored)
      ensures totalItems == if removeOk then 0 else old(totalItems)
    {
      manager.ClearAll(removeOk);
      if removeOk {
        totalItems := 0;
      }
    }
  }
}
