/**
 * The LaunchPad page's manifest (src/pages/LaunchPad.jsx): how the cached
 * manifest is read back, the rule that decides between it and a fresh
 * request, the upcoming-launch filter with its `_fetchedAt` stamp, and the
 * page state that fetchManifest and handleRefresh update.
 */
module LaunchPad {
  import opened Js
  import opened CacheManager
  import opened App
  import Normalize
  import News
  import opened Launches

  const CACHE_KEY: string := "launch_manifest"
  /** Fifteen minutes. */
  const CACHE_TTL: int := 900000

  /**
   * normalizeData as this page writes it: `Object.values` of an object, with
   * no filter for the `_cached`/`_timestamp` markers getCache adds.
   */
  function NormalizeData(data: Json): (r: seq<Json>)
    ensures !Truthy(data) ==> r == []
    ensures data.JArr? ==> r == data.items
    ensures data.JObj? ==> r == Values(data.fields)
    ensures data.JStr? ==> r == []
  {
    if !Truthy(data) then []
    else if data.JArr? then data.items
    else if data.JObj? then Values(data.fields)
    else []
  }

  lemma ValuesAppend(a: seq<(string, Json)>, b: seq<(string, Json)>)
    ensures Values(a + b) == Values(a) + Values(b)
  {
    assert |Values(a + b)| == |Values(a) + Values(b)|;
    forall i | 0 <= i < |a + b|
      ensures Values(a + b)[i] == (Values(a) + Values(b))[i]
    {
      if i < |a| {
        assert (a + b)[i] == a[i];
      } else {
        assert (a + b)[i] == b[i - |a|];
      }
    }
  }

  /**
   * Read back through getCache, a cached manifest comes out of this
   * normalizeData as the launches followed by `true` and the write time; an
   * empty manifest comes out as those two values alone.
   */
  lemma NormalizeLeaksMarkers(xs: seq<Json>, stale: bool, ts: int)
    ensures NormalizeData(Wrap(Some(Hit(JArr(xs), stale, ts)))) == xs + [JBool(true), JNum(ts)]
  {
    WrapArray(xs, stale, ts);
    ValuesAppend(IndexEntries(xs), Markers(ts));
    Normalize.ValuesOfIndexEntries(xs);
  }

  /** As written, a manifest read back from the store keeps the two markers after the launches, stale or not. */
  lemma CachedManifestReadsBack(s: Store, xs: seq<Json>, at: int, ttl: int, now: int)
    requires s.Valid()
    ensures NormalizeData(Wrap(Lookup(Put(s, CACHE_KEY, Entry(JArr(xs), at, ttl)), CACHE_KEY, now)))
      == xs + [JBool(true), JNum(at)]
  {
    NormalizeLeaksMarkers(xs, StaleAt(Put(s, CACHE_KEY, Entry(JArr(xs), at, ttl)), CACHE_KEY, now), at);
  }

  /**
   * fetchManifest's cache rule: unless forced, a cached manifest that is not
   * stale and that this page's normalizeData turns into a non-empty list is
   * shown without a request.
   */
  function UseCachedManifest(forceRefresh: bool, cachedData: Json, isStale: bool): (r: Option<seq<Json>>)
    ensures r.Some? <==> !forceRefresh && !isStale && |NormalizeData(cachedData)| > 0
    ensures r.Some? ==> Truthy(cachedData) && r.value == NormalizeData(cachedData)
  {
    if !forceRefresh && Truthy(cachedData) && !isStale && |NormalizeData(cachedData)| > 0 then
      Some(NormalizeData(cachedData))
    else
      None
  }

  /** A manifest within its ttl is shown as the launches followed by `true` and the write time. */
  lemma FreshManifestShownWithMarkers(s: Store, xs: seq<Json>, at: int, ttl: int, now: int)
    requires s.Valid() && now - at <= ttl
    ensures UseCachedManifest(false, Wrap(Lookup(Put(s, CACHE_KEY, Entry(JArr(xs), at, ttl)), CACHE_KEY, now)),
                              StaleAt(Put(s, CACHE_KEY, Entry(JArr(xs), at, ttl)), CACHE_KEY, now))
      == Some(xs + [JBool(true), JNum(at)])
  {
    CachedManifestReadsBack(s, xs, at, ttl, now);
  }

  /**
   * So an empty manifest within its ttl is never fetched again: it is shown
   * as the two-element list `[true, at]`.
   */
  lemma EmptyManifestNeverRefetched(s: Store, at: int, ttl: int, now: int)
    requires s.Valid() && now - at <= ttl
    ensures UseCachedManifest(false, Wrap(Lookup(Put(s, CACHE_KEY, Entry(JArr([]), at, ttl)), CACHE_KEY, now)),
                              StaleAt(Put(s, CACHE_KEY, Entry(JArr([]), at, ttl)), CACHE_KEY, now))
      == Some([JBool(true), JNum(at)])
  {
    FreshManifestShownWithMarkers(s, [], at, ttl, now);
    assert [] + [JBool(true), JNum(at)] == [JBool(true), JNum(at)];
  }

  /** A manifest past its ttl is fetched again. */
  lemma StaleManifestRefetched(s: Store, xs: seq<Json>, at: int, ttl: int, now: int)
    requires s.Valid() && now - at > ttl
    ensures UseCachedManifest(false, Wrap(Lookup(Put(s, CACHE_KEY, Entry(JArr(xs), at, ttl)), CACHE_KEY, now)),
                              StaleAt(Put(s, CACHE_KEY, Entry(JArr(xs), at, ttl)), CACHE_KEY, now)).None?
  {
  }

  /**
   * The rule as evidently intended: the cached manifest read back with the
   * marker-dropping normalizeData of the News and Assets pages.
   */
  function UseCachedManifestIntended(forceRefresh: bool, cachedData: Json, isStale: bool): (r: Option<seq<Json>>)
    ensures r.Some? <==> !forceRefresh && !isStale && |Normalize.NormalizeData(cachedData)| > 0
    ensures r.Some? ==> Truthy(cachedData) && r.value == Normalize.NormalizeData(cachedData)
  {
    if !forceRefresh && Truthy(cachedData) && !isStale && |Normalize.NormalizeData(cachedData)| > 0 then
      Some(Normalize.NormalizeData(cachedData))
    else
      None
  }

  /** Under the intended rule a non-empty manifest within its ttl is shown exactly as it was cached. */
  lemma IntendedFreshManifestUsed(s: Store, xs: seq<Json>, at: int, ttl: int, now: int)
    requires s.Valid() && |xs| > 0 && now - at <= ttl
    ensures UseCachedManifestIntended(false, Wrap(Lookup(Put(s, CACHE_KEY, Entry(JArr(xs), at, ttl)), CACHE_KEY, now)),
                                      StaleAt(Put(s, CACHE_KEY, Entry(JArr(xs), at, ttl)), CACHE_KEY, now))
      == Some(xs)
  {
    Normalize.CachedListReadsBack(s, CACHE_KEY, xs, at, ttl, now);
  }

  /** Under the intended rule an empty cached manifest is fetched again, fresh or not. */
  lemma IntendedEmptyManifestRefetched(s: Store, at: int, ttl: int, now: int, isStale: bool)
    requires s.Valid()
    ensures UseCachedManifestIntended(false, Wrap(Lookup(Put(s, CACHE_KEY, Entry(JArr([]), at, ttl)), CACHE_KEY, now)), isStale).None?
  {
    Normalize.CachedListReadsBack(s, CACHE_KEY, [], at, ttl, now);
  }

  /** `l.net && new Date(l.net) > currentTime`. */
  predicate IsUpcoming(l: Json, currentTime: int, parse: string -> Option<int>) {
    var net := FieldOf(Some(l), "net");
    net.Some? && Truthy(net.value) && DateOf(net, parse).Some? && DateOf(net, parse).value > currentTime
  }

  /**
   * The upcoming filter over the results: reading `net` throws on a null
   * launch; otherwise each launch dated after `currentTime` is kept as often
   * as it occurs and no other is.
   */
  function Upcoming(results: seq<Json>, currentTime: int, parse: string -> Option<int>): (r: Outcome<seq<Json>>)
    ensures r.Ok? <==> JNull !in results
    ensures r.Ok? ==> forall l :: multiset(r.value)[l] == if IsUpcoming(l, currentTime, parse) then multiset(results)[l] else 0
  {
    if JNull in results then Thrown else Ok(Filter(results, l => IsUpcoming(l, currentTime, parse)))
  }

  /** How the request ends: the stamped upcoming launches, a body without a `results` array, or the catch. */
  datatype Manifest = Loaded(launches: seq<Json>) | WrongShape | Threw

  function FreshManifest(response: Response, currentTime: int, fetchTime: string, parse: string -> Option<int>): Manifest {
    match response
    case Failed => Threw
    case Received(body) =>
      if !Truthy(body) then WrongShape
      else
        match Prop(body, "results")
        case Ok(Some(JArr(results))) =>
          (match Upcoming(results, currentTime, parse)
           case Thrown => Threw
           case Ok(valid) => Loaded(News.EnrichAll(valid, fetchTime)))
        case _ => WrongShape
  }

  /** Stamping a launch leaves its date alone. */
  lemma StampKeepsNet(l: Json, fetchTime: string)
    ensures FieldOf(Some(News.Enrich(l, fetchTime)), "net") == FieldOf(Some(l), "net")
  {
    var net := "net";
    News.EnrichProps(l, fetchTime, net);
    assert net != News.FETCHED_AT;
    match l
    case JArr(xs) => NoIndexKeyNamed(xs, net);
    case JStr(chars) => NoIndexKeyNamed(Chars(chars), net);
    case _ =>
  }

  /** So a stamped launch is upcoming exactly when the launch is. */
  lemma StampKeepsUpcoming(l: Json, fetchTime: string, currentTime: int, parse: string -> Option<int>)
    ensures IsUpcoming(News.Enrich(l, fetchTime), currentTime, parse) <==> IsUpcoming(l, currentTime, parse)
  {
    StampKeepsNet(l, fetchTime);
  }

  /** A name that does not start with a digit is not among the index keys a spread array or string gives. */
  lemma NoIndexKeyNamed(xs: seq<Json>, name: string)
    requires |name| > 0 && !IsDigit(name[0])
    ensures FindProp(IndexEntries(xs), name).None?
  {
    var es := IndexEntries(xs);
    forall i | 0 <= i < |es|
      ensures es[i].0 != name
    {
      assert IsDigit(Decimal(i)[0]);
    }
  }

  /** Every launch a request yields is upcoming and carries the fetch time. */
  lemma FreshManifestUpcoming(response: Response, currentTime: int, fetchTime: string, parse: string -> Option<int>)
    requires FreshManifest(response, currentTime, fetchTime, parse).Loaded?
    ensures forall l :: l in FreshManifest(response, currentTime, fetchTime, parse).launches ==>
      IsUpcoming(l, currentTime, parse) && FindProp(l.fields, News.FETCHED_AT) == Some(JStr(fetchTime))
  {
    var results := Prop(response.body, "results").value.value.items;
    var valid := Upcoming(results, currentTime, parse).value;
    var ls := News.EnrichAll(valid, fetchTime);
    forall l | l in ls
      ensures IsUpcoming(l, currentTime, parse) && FindProp(l.fields, News.FETCHED_AT) == Some(JStr(fetchTime))
    {
      var i :| 0 <= i < |ls| && ls[i] == l;
      assert multiset(valid)[valid[i]] > 0;
      StampKeepsUpcoming(valid[i], fetchTime, currentTime, parse);
      News.EnrichProps(valid[i], fetchTime, News.FETCHED_AT);
    }
  }

  /** The page's state: the launches shown and whether they came from the cache. */
  class LaunchPadPage {
    const context: CacheContext
    var launches: seq<Json>
    var usingCachedData: bool

    ghost predicate Valid()
      reads this, context, context.manager
    {
      context.Valid()
    }

    constructor (context: CacheContext)
      requires context.Valid()
      ensures Valid() && this.context == context
      ensures launches == [] && !usingCachedData
    {
      this.context := context;
      launches := [];
      usingCachedData := false;
    }

    /**
     * fetchManifest(forceRefresh). `now` is when it starts; `respondedAt` is
     * when the response arrives, which is both the `currentTime` the launches
     * are compared with and the time the manifest is written back.
     */
    method FetchManifest(forceRefresh: bool, response: Response, fetchTime: string, parse: string -> Option<int>,
                         now: int, respondedAt: int, writeOk: bool)
      requires Valid()
      modifies this, context, context.manager
      ensures Valid()
      // the cached manifest when it is fresh, read back with the markers this page keeps
      ensures UseCachedManifest(forceRefresh, old(context.GetCache(CACHE_KEY, now)), old(context.IsCacheStale(CACHE_KEY, now))).Some? ==>
        && launches == NormalizeData(old(context.GetCache(CACHE_KEY, now)))
        && usingCachedData
        && unchanged(context, context.manager)
      // the upcoming launches, written back for fifteen minutes
      ensures (UseCachedManifest(forceRefresh, old(context.GetCache(CACHE_KEY, now)), old(context.IsCacheStale(CACHE_KEY, now))).None?
               && FreshManifest(response, respondedAt, fetchTime, parse).Loaded?) ==>
        && launches == FreshManifest(response, respondedAt, fetchTime, parse).launches
        && !usingCachedData
        && context.manager.cache == Put(old(context.manager.cache), CACHE_KEY, Entry(JArr(launches), respondedAt, CACHE_TTL))
        && context.manager.stored == (if writeOk then Some(Serialize(context.manager.cache)) else old(context.manager.stored))
        && context.totalItems == |context.manager.GetAllKeys()|
      // a body of the wrong shape changes nothing
      ensures (UseCachedManifest(forceRefresh, old(context.GetCache(CACHE_KEY, now)), old(context.IsCacheStale(CACHE_KEY, now))).None?
               && FreshManifest(response, respondedAt, fetchTime, parse).WrongShape?) ==>
        && launches == old(launches) && usingCachedData == old(usingCachedData)
        && unchanged(context, context.manager)
      // the catch: whatever manifest is cached, stale or empty, is shown with its markers
      ensures (UseCachedManifest(forceRefresh, old(context.GetCache(CACHE_KEY, now)), old(context.IsCacheStale(CACHE_KEY, now))).None?
               && FreshManifest(response, respondedAt, fetchTime, parse).Threw?) ==>
        && unchanged(context, context.manager)
        && if Truthy(old(context.GetCache(CACHE_KEY, now))) then
             launches == NormalizeData(old(context.GetCache(CACHE_KEY, now))) && usingCachedData
           else
             launches == old(launches) && usingCachedData == old(usingCachedData)
    {
      var cachedData := context.GetCache(CACHE_KEY, now);
      var isStale := context.IsCacheStale(CACHE_KEY, now);
      var fromCache := UseCachedManifest(forceRefresh, cachedData, isStale);
      if fromCache.Some? {
        launches := fromCache.value;
        usingCachedData := true;
        return;
      }
      var incoming := FreshManifest(response, respondedAt, fetchTime, parse);
      match incoming
      case Loaded(ls) =>
        ShowFresh(ls, respondedAt, writeOk);
      case WrongShape =>
      case Threw =>
        ShowFallback(context.GetCache(CACHE_KEY, respondedAt));
    }

    /** The success branch: show the launches and write them back. */
    method ShowFresh(ls: seq<Json>, respondedAt: int, writeOk: bool)
      requires Valid()
      modifies this, context, context.manager
      ensures Valid()
      ensures launches == ls && !usingCachedData
      ensures context.manager.cache == Put(old(context.manager.cache), CACHE_KEY, Entry(JArr(ls), respondedAt, CACHE_TTL))
      ensures context.manager.stored == (if writeOk then Some(Serialize(context.manager.cache)) else old(context.manager.stored))
      ensures context.totalItems == |context.manager.GetAllKeys()|
    {
      launches := ls;
      usingCachedData := false;
      context.UpdateCache(CACHE_KEY, JArr(ls), CacheOptions(Some(CACHE_TTL), None), respondedAt, writeOk);
    }

    /** The catch branch: a cached manifest is shown whatever it normalizes to, markers included. */
    method ShowFallback(cachedData: Json)
      modifies this
      ensures Truthy(cachedData) ==> launches == NormalizeData(cachedData) && usingCachedData
      ensures !Truthy(cachedData) ==> launches == old(launches) && usingCachedData == old(usingCachedData)
    {
      if Truthy(cachedData) {
        launches := NormalizeData(cachedData);
        usingCachedData := true;
      }
    }

    /**
     * handleRefresh: drop the cached manifest, then fetch with force. When the
     * request fails there is no cached manifest left to fall back on. The
     * clear and the later write each save the store on their own, so either
     * can fail while the other goes through.
     */
    method HandleRefresh(response: Response, fetchTime: string, parse: string -> Option<int>,
                         now: int, respondedAt: int, clearWriteOk: bool, setWriteOk: bool)
      requires Valid()
      modifies this, context, context.manager
      ensures Valid()
      ensures FreshManifest(response, respondedAt, fetchTime, parse).Loaded? ==>
        && launches == FreshManifest(response, respondedAt, fetchTime, parse).launches
        && !usingCachedData
        && context.manager.cache
           == Put(Delete(old(context.manager.cache), CACHE_KEY), CACHE_KEY, Entry(JArr(launches), respondedAt, CACHE_TTL))
      ensures !FreshManifest(response, respondedAt, fetchTime, parse).Loaded? ==>
        && launches == old(launches) && usingCachedData == old(usingCachedData)
        && context.manager.cache == Delete(old(context.manager.cache), CACHE_KEY)
      // the blob of the last write that went through: the refreshed store, the cleared one, or the one before
      ensures context.manager.stored ==
        if FreshManifest(response, respondedAt, fetchTime, parse).Loaded? && setWriteOk then Some(Serialize(context.manager.cache))
        else if clearWriteOk then Some(Serialize(Delete(old(context.manager.cache), CACHE_KEY)))
        else old(context.manager.stored)
      ensures context.totalItems == |context.manager.GetAllKeys()|
    {
      context.ClearCache(CACHE_KEY, clearWriteOk);
      assert context.GetCache(CACHE_KEY, now) == JNull;
      FetchManifest(true, response, fetchTime, parse, now, respondedAt, setWriteOk);
    }
  }
}
