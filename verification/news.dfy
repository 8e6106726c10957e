/**
 * The News page (src/pages/News.jsx): the rule that decides between the
 * cached feed and a fresh request, the filter that drops stickied posts,
 * the `_fetchedAt` stamp, and the page state that fetchNews, loadMore and
 * handleRefresh update.
 */
module News {
  import opened Js
  import opened CacheManager
  import opened App
  import opened Normalize

  /** Ten minutes: the ttl the page passes for the feed. */
  const CACHE_TTL: int := 600000
  const ERROR_TEXT: string := "Unable to decrypt signal. Check connection."
  const FETCHED_AT: string := "_fetchedAt"

  /**
   * fetchNews's cache rule: unless forced, a cached entry that normalizes to
   * a non-empty list is shown as is. Staleness is never asked.
   */
  function CachedPosts(forceRefresh: bool, cachedEntry: Json): (r: Option<seq<Json>>)
    ensures r.Some? <==> !forceRefresh && |NormalizeData(cachedEntry)| > 0
    ensures r.Some? ==> Truthy(cachedEntry) && r.value == NormalizeData(cachedEntry)
  {
    if !forceRefresh && Truthy(cachedEntry) && |NormalizeData(cachedEntry)| > 0 then
      Some(NormalizeData(cachedEntry))
    else
      None
  }

  /** A non-empty feed in the store is used however old it is. */
  lemma CachedFeedUsedEvenIfStale(s: Store, posts: seq<Json>, at: int, ttl: int, later: int)
    requires s.Valid() && |posts| > 0
    ensures CachedPosts(false, Wrap(Lookup(Put(s, REDDIT_NEWS_KEY, Entry(JArr(posts), at, ttl)), REDDIT_NEWS_KEY, later)))
      == Some(posts)
  {
    CachedListReadsBack(s, REDDIT_NEWS_KEY, posts, at, ttl, later);
  }

  /** A forced refresh never takes the cached feed. */
  lemma ForcedRefreshSkipsCache(cachedEntry: Json)
    ensures CachedPosts(true, cachedEntry).None?
  {
  }

  /**
   * `item.data.stickied`, read as a boolean. It throws when `item` is null
   * or has no `data`, or when `data` is null.
   */
  function IsStickied(item: Json): (r: Outcome<bool>)
    ensures r.Ok? <==> item.JObj? && HasKey(item.fields, "data") && FindProp(item.fields, "data") != Some(JNull)
  {
    match Prop(item, "data")
    case Thrown => Thrown
    case Ok(None) => Thrown
    case Ok(Some(d)) =>
      match Prop(d, "stickied")
      case Thrown => Thrown
      case Ok(None) => Ok(false)
      case Ok(Some(v)) => Ok(Truthy(v))
  }

  /** A readable post whose `stickied` is falsy. */
  predicate NotStickied(item: Json) {
    Unless(IsStickied)(item)
  }

  /**
   * `items.filter(item => !item.data.stickied)`: throws as soon as one
   * item cannot be read; otherwise keeps exactly the posts that are not
   * stickied, each as often as it occurs, in order.
   */
  function DropStickied(items: seq<Json>): (r: Outcome<seq<Json>>)
    ensures r.Ok? <==> forall i :: 0 <= i < |items| ==> IsStickied(items[i]).Ok?
    ensures r.Ok? ==> r.value == Filter(items, Unless(IsStickied))
  {
    var r := FilterUnless(items, IsStickied);
    if r.Ok? then FilterUnlessFilters(items, IsStickied); r else r
  }

  /**
   * What the filter keeps: each post that is not stickied as often as it
   * occurs, and nothing else.
   */
  lemma DropStickiedKeeps(items: seq<Json>)
    requires DropStickied(items).Ok?
    ensures forall p :: multiset(DropStickied(items).value)[p] == if NotStickied(p) then multiset(items)[p] else 0
    ensures forall p :: p in DropStickied(items).value <==> p in items && IsStickied(p) == Ok(false)
  {
  }

  /** `{ ...item, _fetchedAt: fetchedAt }`: the item's own properties plus the stamp. */
  function Enrich(item: Json, fetchedAt: string): (r: Json)
    ensures r.JObj?
  {
    JObj(DefineProp(OwnEntries(item), FETCHED_AT, JStr(fetchedAt)))
  }

  /** The stamped post reads `_fetchedAt` as the stamp and every other property as the original's. */
  lemma EnrichProps(item: Json, fetchedAt: string, name: string)
    ensures FindProp(Enrich(item, fetchedAt).fields, name)
      == if name == FETCHED_AT then Some(JStr(fetchedAt)) else FindProp(OwnEntries(item), name)
  {
    FindDefined(OwnEntries(item), FETCHED_AT, JStr(fetchedAt), name);
  }

  function EnrichAll(items: seq<Json>, fetchedAt: string): (r: seq<Json>)
    ensures |r| == |items|
    ensures forall i :: 0 <= i < |items| ==> r[i] == Enrich(items[i], fetchedAt)
  {
    seq(|items|, i requires 0 <= i < |items| => Enrich(items[i], fetchedAt))
  }

  /** Stamping a readable post does not change whether it is stickied. */
  lemma EnrichKeepsStickied(item: Json, fetchedAt: string)
    requires IsStickied(item).Ok?
    ensures IsStickied(Enrich(item, fetchedAt)) == IsStickied(item)
  {
    EnrichProps(item, fetchedAt, "data");
  }

  /** `res.data.data.children` when the body has that shape and it is an array. */
  function Children(body: Json): Option<seq<Json>> {
    if !Truthy(body) then None
    else
      match Prop(body, "data")
      case Ok(Some(d)) =>
        if !Truthy(d) then None
        else (
          match Prop(d, "children")
          case Ok(Some(JArr(cs))) => Some(cs)
          case _ => None)
      case _ => None
  }

  /**
   * The posts a request yields: the children that are not stickied, each
   * stamped. None when the request failed, the body has the wrong shape or
   * a child cannot be read; each of those ends in the page's catch.
   */
  function FreshPosts(response: Response, fetchedAt: string): Option<seq<Json>> {
    if response.Failed? then None
    else
      match Children(response.body)
      case None => None
      case Some(cs) =>
        match DropStickied(cs)
        case Thrown => None
        case Ok(clean) => Some(EnrichAll(clean, fetchedAt))
  }

  /** Every post a request yields is a stamped post that is not stickied. */
  lemma FreshPostsNotStickied(response: Response, fetchedAt: string)
    requires FreshPosts(response, fetchedAt).Some?
    ensures forall p :: p in FreshPosts(response, fetchedAt).value ==>
      IsStickied(p) == Ok(false) && FindProp(p.fields, FETCHED_AT) == Some(JStr(fetchedAt))
  {
    var cs := Children(response.body).value;
    var clean := DropStickied(cs).value;
    DropStickiedKeeps(cs);
    var posts := EnrichAll(clean, fetchedAt);
    forall p | p in posts
      ensures IsStickied(p) == Ok(false) && FindProp(p.fields, FETCHED_AT) == Some(JStr(fetchedAt))
    {
      var i :| 0 <= i < |posts| && posts[i] == p;
      assert clean[i] in clean;
      EnrichKeepsStickied(clean[i], fetchedAt);
      EnrichProps(clean[i], fetchedAt, FETCHED_AT);
    }
  }

  /** `item?.data?.name`, with null standing for undefined. */
  function TokenOf(item: Json): Json {
    match item
    case JObj(fs) =>
      (match FindProp(fs, "data")
       case Some(JObj(ds)) =>
         (match FindProp(ds, "name")
          case Some(n) => n
          case None => JNull)
       case _ => JNull)
    case _ => JNull
  }

  /** The paging token after showing `posts`: the last post's, or `previous` when there is none. */
  function NextToken(posts: seq<Json>, previous: Json): Json {
    if |posts| > 0 then TokenOf(posts[|posts| - 1]) else previous
  }

  /** The page's state: the feed shown, whether it came from the cache, the error banner, the paging token. */
  class NewsPage {
    const context: CacheContext
    var news: seq<Json>
    var usingCachedData: bool
    var error: Option<string>
    var lastToken: Json

    ghost predicate Valid()
      reads this, context, context.manager
    {
      context.Valid()
    }

    constructor (context: CacheContext)
      requires context.Valid()
      ensures Valid() && this.context == context
      ensures news == [] && !usingCachedData && error == None && lastToken == JNull
    {
      this.context := context;
      news := [];
      usingCachedData := false;
      error := None;
      lastToken := JNull;
    }

    /**
     * fetchNews(forceRefresh). `now` is when it starts; `respondedAt` is
     * when the response arrives and the feed is written back.
     */
    method FetchNews(forceRefresh: bool, response: Response, fetchedAt: string, now: int, respondedAt: int, writeOk: bool)
      requires Valid()
      modifies this, context, context.manager
      ensures Valid()
      // the cached feed, stale or not
      ensures CachedPosts(forceRefresh, old(context.GetCache(REDDIT_NEWS_KEY, now))).Some? ==>
        && news == NormalizeData(old(context.GetCache(REDDIT_NEWS_KEY, now)))
        && usingCachedData && error == old(error)
        && lastToken == TokenOf(news[|news| - 1])
        && unchanged(context, context.manager)
      // a fresh feed, written back for ten minutes
      ensures (CachedPosts(forceRefresh, old(context.GetCache(REDDIT_NEWS_KEY, now))).None?
               && FreshPosts(response, fetchedAt).Some?) ==>
        && news == FreshPosts(response, fetchedAt).value
        && !usingCachedData && error.None?
        && lastToken == NextToken(news, old(lastToken))
        && context.manager.cache == Put(old(context.manager.cache), REDDIT_NEWS_KEY, Entry(JArr(news), respondedAt, CACHE_TTL))
        && context.manager.stored == (if writeOk then Some(Serialize(context.manager.cache)) else old(context.manager.stored))
        && context.totalItems == |context.manager.GetAllKeys()|
      // the request failed: fall back on a non-empty cached feed, else show the error
      ensures (CachedPosts(forceRefresh, old(context.GetCache(REDDIT_NEWS_KEY, now))).None?
               && FreshPosts(response, fetchedAt).None?) ==>
        && unchanged(context, context.manager)
        && lastToken == old(lastToken)
        && if |NormalizeData(old(context.GetCache(REDDIT_NEWS_KEY, now)))| > 0 then
             news == NormalizeData(old(context.GetCache(REDDIT_NEWS_KEY, now))) && usingCachedData && error.None?
           else
             news == old(news) && usingCachedData == old(usingCachedData)
             && error == Some(ERROR_TEXT)
    {
      if forceRefresh {
        error := None;
      }
      var cachedEntry := context.GetCache(REDDIT_NEWS_KEY, now);
      var fromCache := CachedPosts(forceRefresh, cachedEntry);
      if fromCache.Some? {
        ShowCached(fromCache.value);
        return;
      }
      var incoming := FreshPosts(response, fetchedAt);
      if incoming.Some? {
        ShowFresh(incoming.value, respondedAt, writeOk);
      } else {
        ShowFallback(context.GetCache(REDDIT_NEWS_KEY, now));
      }
    }

    /** The cache-hit branch of fetchNews. */
    method ShowCached(posts: seq<Json>)
      requires |posts| > 0
      modifies this
      ensures news == posts && usingCachedData && error == old(error)
      ensures lastToken == TokenOf(posts[|posts| - 1])
    {
      news := posts;
      usingCachedData := true;
      lastToken := TokenOf(posts[|posts| - 1]);
    }

    /** The success branch of fetchNews: show the posts and write them back for ten minutes. */
    method ShowFresh(posts: seq<Json>, respondedAt: int, writeOk: bool)
      requires Valid()
      modifies this, context, context.manager
      ensures Valid()
      ensures news == posts && !usingCachedData && error.None?
      ensures lastToken == NextToken(posts, old(lastToken))
      ensures context.manager.cache == Put(old(context.manager.cache), REDDIT_NEWS_KEY, Entry(JArr(posts), respondedAt, CACHE_TTL))
      ensures context.manager.stored == (if writeOk then Some(Serialize(context.manager.cache)) else old(context.manager.stored))
      ensures context.totalItems == |context.manager.GetAllKeys()|
    {
      news := posts;
      usingCachedData := false;
      error := None;
      lastToken := NextToken(posts, lastToken);
      context.UpdateCache(REDDIT_NEWS_KEY, JArr(posts), CacheOptions(Some(CACHE_TTL), None), respondedAt, writeOk);
    }

    /** The catch branch of fetchNews: the error banner, unless the cache still holds a non-empty feed. */
    method ShowFallback(cachedEntry: Json)
      modifies this
      ensures lastToken == old(lastToken)
      ensures |NormalizeData(cachedEntry)| > 0 ==> news == NormalizeData(cachedEntry) && usingCachedData && error.None?
      ensures |NormalizeData(cachedEntry)| == 0 ==>
        news == old(news) && usingCachedData == old(usingCachedData) && error == Some(ERROR_TEXT)
    {
      error := Some(ERROR_TEXT);
      if Truthy(cachedEntry) {
        var fallback := NormalizeData(cachedEntry);
        if |fallback| > 0 {
          news := fallback;
          usingCachedData := true;
          error := None;
        }
      }
    }

    /**
     * loadMore: with a paging token, append the next page's posts that are
     * not stickied and write the whole feed back. A failed request, a body of
     * the wrong shape or an empty page changes nothing.
     */
    method LoadMore(response: Response, fetchedAt: string, respondedAt: int, writeOk: bool)
      requires Valid()
      modifies this, context, context.manager
      ensures Valid()
      ensures usingCachedData == old(usingCachedData) && error == old(error)
      ensures (Truthy(old(lastToken)) && FreshPosts(response, fetchedAt).Some?
               && |FreshPosts(response, fetchedAt).value| > 0) ==>
        && news == old(news) + FreshPosts(response, fetchedAt).value
        && lastToken == NextToken(FreshPosts(response, fetchedAt).value, old(lastToken))
        && context.manager.cache == Put(old(context.manager.cache), REDDIT_NEWS_KEY, Entry(JArr(news), respondedAt, CACHE_TTL))
        && context.manager.stored == (if writeOk then Some(Serialize(context.manager.cache)) else old(context.manager.stored))
        && context.totalItems == |context.manager.GetAllKeys()|
      ensures !(Truthy(old(lastToken)) && FreshPosts(response, fetchedAt).Some?
                && |FreshPosts(response, fetchedAt).value| > 0) ==>
        && news == old(news) && lastToken == old(lastToken)
        && unchanged(context, context.manager)
    {
      if !Truthy(lastToken) {
        return;
      }
      var incoming := FreshPosts(response, fetchedAt);
      if incoming.Some? && |incoming.value| > 0 {
        AppendPosts(incoming.value, respondedAt, writeOk);
      }
    }

    /** The success branch of loadMore: append the page and write the whole feed back. */
    method AppendPosts(posts: seq<Json>, respondedAt: int, writeOk: bool)
      requires Valid()
      modifies this, context, context.manager
      ensures Valid()
      ensures usingCachedData == old(usingCachedData) && error == old(error)
      ensures news == old(news) + posts && lastToken == NextToken(posts, old(lastToken))
      ensures context.manager.cache == Put(old(context.manager.cache), REDDIT_NEWS_KEY, Entry(JArr(news), respondedAt, CACHE_TTL))
      ensures context.manager.stored == (if writeOk then Some(Serialize(context.manager.cache)) else old(context.manager.stored))
      ensures context.totalItems == |context.manager.GetAllKeys()|
    {
      news := news + posts;
      context.UpdateCache(REDDIT_NEWS_KEY, JArr(news), CacheOptions(Some(CACHE_TTL), None), respondedAt, writeOk);
      lastToken := NextToken(posts, lastToken);
    }

    /**
     * handleRefresh: drop the cached feed, then fetch with force. A failed
     * refresh therefore shows the error and never the dropped feed. The clear
     * and the later write each save the store on their own, so either can
     * fail while the other goes through.
     */
    method HandleRefresh(response: Response, fetchedAt: string, now: int, respondedAt: int,
                         clearWriteOk: bool, setWriteOk: bool)
      requires Valid()
      modifies this, context, context.manager
      ensures Valid()
      ensures FreshPosts(response, fetchedAt).Some? ==>
        && news == FreshPosts(response, fetchedAt).value
        && !usingCachedData && error.None?
        && lastToken == NextToken(news, old(lastToken))
        && context.manager.cache
           == Put(Delete(old(context.manager.cache), REDDIT_NEWS_KEY), REDDIT_NEWS_KEY, Entry(JArr(news), respondedAt, CACHE_TTL))
      ensures FreshPosts(response, fetchedAt).None? ==>
        && news == old(news) && usingCachedData == old(usingCachedData)
        && error == Some(ERROR_TEXT)
        && lastToken == old(lastToken)
        && context.manager.cache == Delete(old(context.manager.cache), REDDIT_NEWS_KEY)
      // the blob of the last write that went through: the refreshed store, the cleared one, or the one before
      ensures context.manager.stored ==
        if FreshPosts(response, fetchedAt).Some? && setWriteOk then Some(Serialize(context.manager.cache))
        else if clearWriteOk then Some(Serialize(Delete(old(context.manager.cache), REDDIT_NEWS_KEY)))
        else old(context.manager.stored)
      ensures context.totalItems == |context.manager.GetAllKeys()|
    {
      context.ClearCache(REDDIT_NEWS_KEY, clearWriteOk);
      assert context.GetCache(REDDIT_NEWS_KEY, now) == JNull;
      FetchNews(true, response, fetchedAt, now, respondedAt, setWriteOk);
    }
  }
}
