/**
 * The Assets page (src/pages/Assets.jsx): the endpoint table per agency and
 * category, the per-category cache key, and loadCategory, which shows a
 * cached list when there is one and otherwise fetches and caches the list
 * for an hour.
 */
module Assets {
  import opened Js
  import opened CacheManager
  import opened App
  import opened Normalize

  const SPACEX: string := "SPACEX"
  const NASA: string := "NASA"
  const SPACEX_BASE: string := "https://api.spacexdata.com/v4"
  const LL2_BASE: string := "https://lldev.thespacedevs.com/2.2.0"

  /** The category tiles, in display order. */
  const CATEGORIES: seq<string> :=
    ["rockets", "dragons", "ships", "launchpads", "landpads", "capsules",
     "cores", "payloads", "history", "roadster", "info"]

  /** The path SpaceX's API serves a category under; `info` is the company record. */
  function SpaceXPath(catId: string): Option<string> {
    if catId == "info" then Some("company")
    else if catId in CATEGORIES then Some(catId)
    else None
  }

  /** The Launch Library agency id: 44 for NASA, 31 for anyone else. */
  function AgencyId(agency: string): string {
    if agency == NASA then "44" else "31"
  }

  function GetEndpoint(agency: string, catId: string): (r: Option<string>)
    ensures agency == SPACEX ==> (r.Some? <==> catId in CATEGORIES)
    ensures agency != SPACEX ==> (r.Some? <==> catId == "rockets" || catId == "launchpads")
  {
    if agency == SPACEX then
      match SpaceXPath(catId)
      case Some(path) => Some(SPACEX_BASE + "/" + path)
      case None => None
    else if catId == "rockets" then
      Some(LL2_BASE + "/config/launcher/?limit=100&manufacturer__id=" + AgencyId(agency))
    else if catId == "launchpads" then
      Some(LL2_BASE + "/pad/?limit=100&agency__id=" + AgencyId(agency))
    else
      None
  }

  /** Every SpaceX category has an endpoint under the v4 base, `info` at `/company`. */
  lemma SpaceXEndpoints(catId: string)
    requires catId in CATEGORIES
    ensures GetEndpoint(SPACEX, catId)
      == Some(SPACEX_BASE + "/" + if catId == "info" then "company" else catId)
  {
  }

  /** Any other agency has exactly two endpoints, both filtered by its Launch Library id. */
  lemma OtherAgencyEndpoints(agency: string)
    requires agency != SPACEX
    ensures GetEndpoint(agency, "rockets")
      == Some(LL2_BASE + "/config/launcher/?limit=100&manufacturer__id=" + AgencyId(agency))
    ensures GetEndpoint(agency, "launchpads")
      == Some(LL2_BASE + "/pad/?limit=100&agency__id=" + AgencyId(agency))
    ensures AgencyId(agency) == if agency == NASA then "44" else "31"
  {
  }

  /** A category outside the table has no endpoint for any agency. */
  lemma UnknownCategoryHasNoEndpoint(agency: string, catId: string)
    requires catId !in CATEGORIES
    ensures GetEndpoint(agency, catId).None?
  {
  }

  /** The test `cat => getEndpoint(agency, cat.id) !== null`. */
  function HasEndpoint(agency: string): string -> bool {
    c => GetEndpoint(agency, c).Some?
  }

  /** `categories.filter(cat => getEndpoint(agency, cat.id) !== null)` over a list of ids. */
  function Supported(agency: string, cats: seq<string>): (r: seq<string>)
    ensures forall c :: c in r <==> c in cats && GetEndpoint(agency, c).Some?
    decreases |cats|
  {
    if cats == [] then []
    else
      var rest := Supported(agency, cats[1..]);
      assert forall c :: c in cats <==> c == cats[0] || c in cats[1..];
      if GetEndpoint(agency, cats[0]).Some? then [cats[0]] + rest else rest
  }

  /** The supported categories are `filter`'s: in their order, each as often as it is listed. */
  lemma {:induction false} SupportedIsFilter(agency: string, cats: seq<string>)
    ensures Supported(agency, cats) == Filter(cats, HasEndpoint(agency))
    decreases |cats|
  {
    if cats != [] {
      SupportedIsFilter(agency, cats[1..]);
    }
  }

  function SupportedCats(agency: string): seq<string> {
    Supported(agency, CATEGORIES)
  }

  lemma {:induction false} SupportedAll(agency: string, cats: seq<string>)
    requires forall c :: c in cats ==> GetEndpoint(agency, c).Some?
    ensures Supported(agency, cats) == cats
    decreases |cats|
  {
    if cats != [] {
      assert cats[0] in cats;
      assert forall c :: c in cats[1..] ==> c in cats;
      SupportedAll(agency, cats[1..]);
    }
  }

  /**
   * SpaceX shows all eleven tiles, in order; any other agency shows exactly
   * the Rockets and Launch Pads tiles.
   */
  lemma SupportedCatsByAgency(agency: string)
    ensures agency == SPACEX ==> SupportedCats(agency) == CATEGORIES
    ensures agency != SPACEX ==> SupportedCats(agency) == ["rockets", "launchpads"]
  {
    if agency == SPACEX {
      SupportedAll(agency, CATEGORIES);
    } else {
      var cs := CATEGORIES;
      assert cs == [cs[0], cs[1], cs[2], cs[3]] + cs[4..];
      assert forall c :: c in cs[4..] ==> c != "rockets" && c != "launchpads";
      SupportedFirstAndFourth(agency, cs[0], cs[1], cs[2], cs[3], cs[4..]);
    }
  }

  /** A list with no supported category keeps nothing. */
  lemma NoneSupported(agency: string, cats: seq<string>)
    requires forall c :: c in cats ==> GetEndpoint(agency, c).None?
    ensures Supported(agency, cats) == []
  {
  }

  /** Of four leading categories, only the first and the fourth supported, and none after them. */
  lemma SupportedFirstAndFourth(agency: string, a: string, b: string, c: string, d: string, rest: seq<string>)
    requires GetEndpoint(agency, a).Some? && GetEndpoint(agency, b).None?
    requires GetEndpoint(agency, c).None? && GetEndpoint(agency, d).Some?
    requires forall x :: x in rest ==> GetEndpoint(agency, x).None?
    ensures Supported(agency, [a, b, c, d] + rest) == [a, d]
  {
    var fromD := [d] + rest;
    var fromC := [c] + fromD;
    var fromB := [b] + fromC;
    assert [a, b, c, d] + rest == [a] + fromB;
    NoneSupported(agency, rest);
    SupportedCons(agency, d, rest);
    SupportedCons(agency, c, fromD);
    SupportedCons(agency, b, fromC);
    SupportedCons(agency, a, fromB);
  }

  /** One step of the filter: the head is kept exactly when it has an endpoint. */
  lemma SupportedCons(agency: string, c: string, rest: seq<string>)
    ensures Supported(agency, [c] + rest)
      == (if GetEndpoint(agency, c).Some? then [c] else []) + Supported(agency, rest)
  {
    assert ([c] + rest)[1..] == rest;
  }

  /** The cache key of a category: `ASSETS_<agency>_<catId>`. */
  function CacheKey(agency: string, catId: string): string {
    "ASSETS_" + agency + "_" + catId
  }

  /** For agency names without an underscore, different (agency, category) pairs never share a key. */
  lemma CacheKeyInjective(a1: string, c1: string, a2: string, c2: string)
    requires '_' !in a1 && '_' !in a2
    requires CacheKey(a1, c1) == CacheKey(a2, c2)
    ensures a1 == a2 && c1 == c2
  {
    var k := CacheKey(a1, c1);
    assert k == "ASSETS_" + a1 + "_" + c1 && k == "ASSETS_" + a2 + "_" + c2;
    assert k[7 + |a1|] == '_' && k[7 + |a2|] == '_';
    assert |a1| == |a2|;
    assert a1 == k[7..7 + |a1|] == a2;
    assert c1 == k[8 + |a1|..] == c2;
  }

  /**
   * The list a response yields: SpaceX answers with an array or a single
   * record (wrapped as a one-element list); the Launch Library answers with
   * `results`, a falsy one read as the empty list. A null Launch Library
   * body throws.
   */
  function Results(agency: string, body: Json): (r: Outcome<Json>)
    ensures r.Thrown? <==> agency != SPACEX && body.JNull?
    ensures agency == SPACEX ==> r == Ok(if body.JArr? then body else JArr([body]))
    // `res.data.results || []`: a truthy `results` property as it is, otherwise the empty list
    ensures agency != SPACEX && body.JObj? && FindProp(body.fields, "results").Some?
            && Truthy(FindProp(body.fields, "results").value) ==>
      r == Ok(FindProp(body.fields, "results").value)
    ensures agency != SPACEX && body.JObj? && FindProp(body.fields, "results").Some?
            && !Truthy(FindProp(body.fields, "results").value) ==>
      r == Ok(JArr([]))
    ensures agency != SPACEX && !body.JNull? && (!body.JObj? || FindProp(body.fields, "results").None?) ==>
      r == Ok(JArr([]))
    ensures r.Ok? ==> Truthy(r.value)
  {
    if agency == SPACEX then
      Ok(if body.JArr? then body else JArr([body]))
    else
      match Prop(body, "results")
      case Thrown => Thrown
      case Ok(None) => Ok(JArr([]))
      case Ok(Some(v)) => Ok(if Truthy(v) then v else JArr([]))
  }

  /** The page's state: the selected agency, the open category and the items shown. */
  class AssetsPage {
    const context: CacheContext
    var agency: string
    var category: Option<string>
    var data: Json

    ghost predicate Valid()
      reads this, context, context.manager
    {
      context.Valid()
    }

    constructor (context: CacheContext)
      requires context.Valid()
      ensures Valid() && this.context == context
      ensures agency == SPACEX && category == None && data == JArr([])
    {
      this.context := context;
      agency := SPACEX;
      category := None;
      data := JArr([]);
    }

    /** The agency buttons. */
    method SelectAgency(a: string)
      modifies this
      ensures agency == a && category == old(category) && data == old(data)
    {
      agency := a;
    }

    /**
     * loadCategory(catId). `response` is what the endpoint answered (the
     * request is only made when there is an endpoint); `respondedAt` is when
     * the answer arrived and the list was cached.
     */
    method LoadCategory(catId: string, response: Response, now: int, respondedAt: int, writeOk: bool)
      requires Valid()
      modifies this, context, context.manager
      ensures Valid()
      ensures agency == old(agency)
      // a cached entry, stale or not, is shown without a request
      ensures CacheKey(agency, catId) in old(context.manager.cache.entries) ==>
        && category == Some(catId)
        && data == JArr(NormalizeData(old(context.GetCache(CacheKey(agency, catId), now))))
        && unchanged(context, context.manager)
      // no endpoint: nothing happens
      ensures (CacheKey(agency, catId) !in old(context.manager.cache.entries)
               && GetEndpoint(agency, catId).None?) ==>
        && category == old(category) && data == old(data)
        && unchanged(context, context.manager)
      // the request succeeded: show the list and cache it for an hour
      ensures (CacheKey(agency, catId) !in old(context.manager.cache.entries)
               && GetEndpoint(agency, catId).Some?
               && response.Received? && Results(agency, response.body).Ok?) ==>
        && category == Some(catId)
        && data == Results(agency, response.body).value
        && context.manager.cache
           == Put(old(context.manager.cache), CacheKey(agency, catId), Entry(data, respondedAt, ASSETS_TTL))
        && context.manager.stored
           == (if writeOk then Some(Serialize(context.manager.cache)) else old(context.manager.stored))
        && context.totalItems == |context.manager.GetAllKeys()|
      // the request failed: the category opens empty
      ensures (CacheKey(agency, catId) !in old(context.manager.cache.entries)
               && GetEndpoint(agency, catId).Some?
               && (response.Failed? || Results(agency, response.body).Thrown?)) ==>
        && category == Some(catId) && data == JArr([])
        && unchanged(context, context.manager)
    {
      var key := CacheKey(agency, catId);
      var cachedEntry := context.GetCache(key, now);
      if Truthy(cachedEntry) {
        category := Some(catId);
        data := JArr(NormalizeData(cachedEntry));
        return;
      }
      var url := GetEndpoint(agency, catId);
      if url.None? {
        return;
      }
      category := Some(catId);
      data := JArr([]);
      if response.Received? {
        var results := Results(agency, response.body);
        if results.Ok? {
          data := results.value;
          context.UpdateCache(key, results.value, CacheOptions(Some(ASSETS_TTL), None), respondedAt, writeOk);
        }
      }
    }
  }
}
