/**
 * The TTL cache store of src/utils/cacheManager.js: one insertion-ordered map
 * from key to entry, loaded from a single durable blob at start-up and written
 * back whole after every `set` and `clear`. Staleness is computed on read and
 * nothing is ever evicted because it is stale.
 */
module CacheManager {
  import opened Js

  /** One cached item: the payload, its write time and how long it stays fresh (ms). */
  datatype Entry = Entry(data: Json, timestamp: int, ttl: int)

  /** What `get` returns for a present key. */
  datatype Hit = Hit(data: Json, isStale: bool, timestamp: int)

  /** The text found under the storage key, as loading reads it. */
  datatype Blob =
    | EntryList(entries: seq<(string, Entry)>)  // the JSON text of a map's entry list
    | EmptyText                                 // the empty string
    | Malformed                                 // text that JSON.parse or `new Map` rejects

  /** The durable storage key the blob lives under. */
  const STORAGE_KEY: string := "cosmos_cache_v1"

  /** The ttl `set` uses when none is given: five minutes. */
  const DEFAULT_TTL: int := 300000

  // CACHE_KEYS
  const APOD_KEY: string := "apod_data"
  const NEXT_LAUNCH_KEY: string := "next_launch"
  const LAUNCH_MANIFEST_KEY: string := "launch_manifest"
  const LAUNCH_PADS_KEY: string := "launch_pads"
  const ISS_DATA_KEY: string := "iss_current_position"
  const ISS_PASSES_KEY: string := "iss_passes_"
  const REDDIT_NEWS_KEY: string := "reddit_news"
  const ASSETS_ROCKETS_KEY: string := "assets_rockets_"
  const ASSETS_DRAGONS_KEY: string := "assets_dragons_"
  const ASSETS_SHIPS_KEY: string := "assets_ships_"
  const GEOLOCATION_KEY: string := "geolocation_"

  // CACHE_TTLS, in milliseconds
  const APOD_TTL: int := 24 * 60 * 60 * 1000
  const NEXT_LAUNCH_TTL: int := 30 * 60 * 1000
  const LAUNCH_MANIFEST_TTL: int := 15 * 60 * 1000
  const LAUNCH_PADS_TTL: int := 24 * 60 * 60 * 1000
  const ISS_DATA_TTL: int := 5000
  const ISS_PASSES_TTL: int := 60 * 60 * 1000
  const REDDIT_NEWS_TTL: int := 10 * 60 * 1000
  const ASSETS_TTL: int := 60 * 60 * 1000
  const GEOLOCATION_TTL: int := 7 * 24 * 60 * 60 * 1000

  /**
   * The value of a JavaScript Map: its entries and the order in which its keys
   * were first inserted (the order `keys()` and `entries()` follow).
   */
  datatype Store = Store(entries: map<string, Entry>, order: seq<string>) {
    ghost predicate Valid() {
      Distinct(order) && forall k :: k in entries <==> k in order
    }
  }

  function EmptyStore(): (s: Store)
    ensures s.Valid()
  {
    Store(map[], [])
  }

  /** `map.set(k, e)`: the entry for `k` is replaced; a new key goes last. */
  function Put(s: Store, k: string, e: Entry): (r: Store)
    requires s.Valid()
    ensures r.Valid()
    ensures k in r.entries && r.entries[k] == e
    ensures forall k' :: k' != k ==>
      (k' in r.entries <==> k' in s.entries) && (k' in s.entries ==> r.entries[k'] == s.entries[k'])
    ensures r.order == if k in s.entries then s.order else s.order + [k]
  {
    Store(s.entries[k := e], if k in s.entries then s.order else s.order + [k])
  }

  /** The key order with `k` taken out, the other keys keeping their places relative to each other. */
  function Without(order: seq<string>, k: string): (r: seq<string>)
    ensures forall x :: x in r <==> x in order && x != k
    ensures Distinct(order) ==> Distinct(r)
    ensures k !in order ==> r == order
    decreases |order|
  {
    if order == [] then []
    else if order[0] == k then Without(order[1..], k)
    else
      var rest := Without(order[1..], k);
      if Distinct(order) then
        assert order[0] !in order[1..] && Distinct(order[1..]);
        DistinctCons(order[0], rest);
        [order[0]] + rest
      else
        [order[0]] + rest
  }

  /** Taking `k` out is `filter(x => x !== k)`: the other keys stay in their order. */
  lemma {:induction false} WithoutIsFilter(order: seq<string>, k: string)
    ensures Without(order, k) == Filter(order, Differs(k))
    decreases |order|
  {
    if order != [] {
      WithoutIsFilter(order[1..], k);
    }
  }

  lemma DistinctCons(x: string, s: seq<string>)
    requires x !in s && Distinct(s)
    ensures Distinct([x] + s)
  {
  }

  /** `map.delete(k)`: exactly `k` goes, the others keep their insertion order; nothing happens when it is absent. */
  function Delete(s: Store, k: string): (r: Store)
    requires s.Valid()
    ensures r.Valid()
    ensures r.order == Filter(s.order, Differs(k))
    ensures k !in r.entries
    ensures forall k' :: k' != k ==>
      (k' in r.entries <==> k' in s.entries) && (k' in s.entries ==> r.entries[k'] == s.entries[k'])
    ensures k !in s.entries ==> r == s
  {
    WithoutIsFilter(s.order, k);
    Store(s.entries - {k}, Without(s.order, k))
  }

  /** The staleness test: strictly more than `ttl` milliseconds since the write. */
  predicate Expired(e: Entry, now: int) {
    now - e.timestamp > e.ttl
  }

  /** `isStale(key)`: an absent key counts as stale. */
  predicate StaleAt(s: Store, k: string, now: int) {
    k !in s.entries || Expired(s.entries[k], now)
  }

  /** `get(key)`: null when absent; a stale entry is still returned, flagged. */
  function Lookup(s: Store, k: string, now: int): (r: Option<Hit>)
    ensures r.None? <==> k !in s.entries
    ensures r.Some? ==> r.value.data == s.entries[k].data && r.value.timestamp == s.entries[k].timestamp
    ensures r.Some? ==> (r.value.isStale <==> StaleAt(s, k, now))
  {
    if k !in s.entries then None
    else
      var e := s.entries[k];
      Some(Hit(e.data, now - e.timestamp > e.ttl, e.timestamp))
  }

  /** The `ttl = 5 * 60 * 1000` default parameter: only a missing ttl is replaced. */
  function TtlOrDefault(ttl: Option<int>): int {
    if ttl.Some? then ttl.value else DEFAULT_TTL
  }

  // ---------------------------------------------------------------------------
  // Properties of single operations

  /** Set then get at the same instant returns the payload and the write time. */
  lemma SetThenGet(s: Store, k: string, data: Json, ttl: int, now: int)
    requires s.Valid()
    ensures Lookup(Put(s, k, Entry(data, now, ttl)), k, now) == Some(Hit(data, ttl < 0, now))
    ensures ttl >= 0 ==> !StaleAt(Put(s, k, Entry(data, now, ttl)), k, now)
  {
  }

  /** A second set replaces the first entirely: no trace of the first write remains. */
  lemma ReplaceNotMerge(s: Store, k: string, e1: Entry, e2: Entry)
    requires s.Valid()
    ensures Put(Put(s, k, e1), k, e2) == Put(s, k, e2)
  {
    assert s.entries[k := e1][k := e2] == s.entries[k := e2];
  }

  /** Absence is staleness, and get reports null. */
  lemma AbsentIsStale(s: Store, k: string, now: int)
    requires k !in s.entries
    ensures Lookup(s, k, now) == None && StaleAt(s, k, now)
  {
  }

  // ---------------------------------------------------------------------------
  // Staleness over a run of operations

  /** A mutating call on the store, with the clock reading `set` takes. */
  datatype Op =
    | SetOp(key: string, data: Json, ttl: Option<int>, at: int)
    | ClearOp(key: string)
    | ClearAllOp

  function Apply(s: Store, op: Op): (r: Store)
    requires s.Valid()
    ensures r.Valid()
  {
    match op
    case SetOp(k, d, t, at) => Put(s, k, Entry(d, at, TtlOrDefault(t)))
    case ClearOp(k) => Delete(s, k)
    case ClearAllOp => EmptyStore()
  }

  function Run(s: Store, ops: seq<Op>): (r: Store)
    requires s.Valid()
    ensures r.Valid()
    decreases |ops|
  {
    if ops == [] then s else Run(Apply(s, ops[0]), ops[1..])
  }

  /**
   * Once stale, a key stays stale at every later instant until it is set
   * again, whatever else happens to the store meanwhile.
   */
  lemma {:induction false} StaysStale(s: Store, ops: seq<Op>, k: string, t0: int, t1: int)
    requires s.Valid()
    requires StaleAt(s, k, t0) && t0 <= t1
    requires forall i :: 0 <= i < |ops| ==> !(ops[i].SetOp? && ops[i].key == k)
    ensures StaleAt(Run(s, ops), k, t1)
    decreases |ops|
  {
    if ops != [] {
      var s' := Apply(s, ops[0]);
      assert StaleAt(s', k, t0);
      StaysStale(s', ops[1..], k, t0, t1);
    }
  }

  // ---------------------------------------------------------------------------
  // Persistence

  /** `Array.from(map.entries())` for the keys in `order`. */
  function EntriesOf(m: map<string, Entry>, order: seq<string>): (es: seq<(string, Entry)>)
    requires forall k :: k in order ==> k in m
    ensures |es| == |order|
    ensures forall i :: 0 <= i < |order| ==> es[i] == (order[i], m[order[i]])
    decreases |order|
  {
    if order == [] then []
    else EntriesOf(m, order[..|order| - 1]) + [(order[|order| - 1], m[order[|order| - 1]])]
  }

  /** What `saveToStorage` writes: the entry list in insertion order. */
  function Serialize(s: Store): Blob
    requires s.Valid()
  {
    EntryList(EntriesOf(s.entries, s.order))
  }

  /**
   * `new Map(entries)`: each entry in turn is `set`, so a repeated key keeps
   * its first place and its last value.
   */
  function FromEntries(es: seq<(string, Entry)>): (s: Store)
    ensures s.Valid()
    decreases |es|
  {
    if es == [] then EmptyStore()
    else Put(FromEntries(es[..|es| - 1]), es[|es| - 1].0, es[|es| - 1].1)
  }

  /**
   * `loadFromStorage`: a missing blob, the empty string and anything that
   * does not parse as an entry list all give an empty map.
   */
  function Hydrate(stored: Option<Blob>): (s: Store)
    ensures s.Valid()
    ensures (stored.None? || !stored.value.EntryList?) ==> s.entries == map[] && s.order == []
  {
    match stored
    case Some(EntryList(es)) => FromEntries(es)
    case _ => EmptyStore()
  }

  function Restrict(m: map<string, Entry>, ks: seq<string>): map<string, Entry> {
    map k | k in m && k in ks :: m[k]
  }

  lemma RestrictSnoc(m: map<string, Entry>, p: seq<string>, k: string)
    requires k in m
    ensures Restrict(m, p)[k := m[k]] == Restrict(m, p + [k])
  {
    var lhs, rhs := Restrict(m, p)[k := m[k]], Restrict(m, p + [k]);
    assert forall x :: x in p + [k] <==> x in p || x == k;
    assert lhs.Keys == rhs.Keys;
  }

  lemma {:induction false} ReloadPrefix(s: Store, n: nat)
    requires s.Valid() && n <= |s.order|
    ensures FromEntries(EntriesOf(s.entries, s.order[..n])) == Store(Restrict(s.entries, s.order[..n]), s.order[..n])
  {
    var m := s.entries;
    if n == 0 {
      assert Restrict(m, []) == map[];
    } else {
      var p, k, pn := s.order[..n - 1], s.order[n - 1], s.order[..n];
      assert pn == p + [k] && pn[..n - 1] == p;
      ReloadPrefix(s, n - 1);
      var es := EntriesOf(m, pn);
      assert es[..n - 1] == EntriesOf(m, p);
      assert es[n - 1] == (k, m[k]);
      var before := Store(Restrict(m, p), p);
      assert FromEntries(es) == Put(before, k, m[k]);
      assert k !in p;
      assert k !in before.entries;
      RestrictSnoc(m, p, k);
    }
  }

  /** Reloading what `saveToStorage` wrote reproduces the map, order included. */
  lemma PersistRoundTrip(s: Store)
    requires s.Valid()
    ensures Hydrate(Some(Serialize(s))) == s
  {
    var n := |s.order|;
    assert s.order[..n] == s.order;
    ReloadPrefix(s, n);
    RestrictAll(s.entries, s.order);
  }

  lemma RestrictAll(m: map<string, Entry>, ks: seq<string>)
    requires forall k :: k in m <==> k in ks
    ensures Restrict(m, ks) == m
  {
    assert Restrict(m, ks).Keys == m.Keys;
  }

  // ---------------------------------------------------------------------------
  // The store object

  /** The object `createCacheManager` returns, with the durable copy beside it. */
  class Cache {
    /** The closure-held Map. */
    var cache: Store
    /** The blob under STORAGE_KEY; None when there is none. */
    var stored: Option<Blob>

    ghost predicate Valid()
      reads this
    {
      cache.Valid()
    }

    /** Construction: hydrate from whatever the storage holds. */
    constructor (stored: Option<Blob>)
      ensures Valid()
      ensures cache == Hydrate(stored) && this.stored == stored
    {
      cache := Hydrate(stored);
      this.stored := stored;
    }

    /** `saveToStorage`: a failed write is swallowed and leaves the old blob. */
    method SaveToStorage(writeOk: bool)
      requires Valid()
      modifies this`stored
      ensures stored == if writeOk then Some(Serialize(cache)) else old(stored)
      ensures writeOk ==> Hydrate(stored) == cache
    {
      if writeOk {
        stored := Some(Serialize(cache));
        PersistRoundTrip(cache);
      }
    }

    method Set(key: string, data: Json, ttl: Option<int>, now: int, writeOk: bool)
      requires Valid()
      modifies this
      ensures Valid()
      ensures cache == Put(old(cache), key, Entry(data, now, TtlOrDefault(ttl)))
      ensures stored == if writeOk then Some(Serialize(cache)) else old(stored)
      ensures writeOk ==> Hydrate(stored) == cache
      ensures Get(key, now) == Some(Hit(data, TtlOrDefault(ttl) < 0, now))
    {
      cache := Put(cache, key, Entry(data, now, TtlOrDefault(ttl)));
      SaveToStorage(writeOk);
    }

    function Get(key: string, now: int): Option<Hit>
      reads this
    {
      Lookup(cache, key, now)
    }

    predicate IsStale(key: string, now: int)
      reads this
    {
      StaleAt(cache, key, now)
    }

    method Clear(key: string, writeOk: bool)
      requires Valid()
      modifies this
      ensures Valid()
      ensures cache == Delete(old(cache), key)
      ensures stored == if writeOk then Some(Serialize(cache)) else old(stored)
      ensures writeOk ==> Hydrate(stored) == cache
    {
      cache := Delete(cache, key);
      SaveToStorage(writeOk);
    }

    /**
     * Empties the map and removes the blob instead of writing an empty one.
     * The removal is not guarded: when storage throws (`removeOk` false) the
     * map is already empty, the blob stays and the exception goes on to the
     * caller.
     */
    method ClearAll(removeOk: bool)
      requires Valid()
      modifies this
      ensures Valid()
      ensures cache == EmptyStore() && GetAllKeys() == []
      ensures stored == if removeOk then None else old(stored)
      ensures removeOk ==> Hydrate(stored) == cache
    {
      cache := EmptyStore();
      if removeOk {
        stored := None;
      }
    }

    /** `Array.from(cache.keys())`: every present key once, in insertion order. */
    function GetAllKeys(): (keys: seq<string>)
      reads this
      requires Valid()
      ensures Distinct(keys)
      ensures forall k :: k in keys <==> k in cache.entries
    {
      cache.order
    }
  }
}
