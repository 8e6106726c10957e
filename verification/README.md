# Void: the dashboard cache and the pages that read it

Void is a space dashboard. Every page consults one client-side cache before
it asks a remote API for data. This project models that cache and the code
on both sides of it, and proves what that code promises.

- **The store** (`src/utils/cacheManager.js`):
  - a keyed map of `{data, timestamp, ttl}` entries that keeps insertion order;
  - loaded from a single durable blob at start-up;
  - written back whole after every `set` and `clear`;
  - emptied, with its blob removed, by `clearAll`.

  Staleness is computed on read with a strict `>`. Stale entries are never
  evicted.
- **The adapter App hands to the pages** (`src/App.jsx:43-65`):
  - `updateCache` resolves the key and the ttl, with a falsy ttl becoming one hour;
  - `getCache` spreads the payload into a fresh object tagged `_cached` and
    `_timestamp`, so an array comes back as an object with keys
    `"0".."n-1"`;
  - the adapter keeps the item count the status bar shows.
- **The pages' reading and deciding logic:**
  - the `normalizeData` helpers that turn a cached value back into a list;
  - the cache-or-fetch rules of News, Assets and LaunchPad;
  - the stickied-post filter and the `_fetchedAt` stamp;
  - the Assets endpoint table and its cache key;
  - the LaunchPad launch filter and sorts, agency list and T-minus countdown;
  - the page state that `fetchNews`, `loadMore`, `loadCategory`,
    `fetchManifest` and the refresh buttons update.

## How the model is built

- `js.dfy` (module `Js`) gives the JavaScript values the code handles.
  - A value is a `Json`. An object is its list of properties in the order
    JavaScript enumerates them: integer-like keys ascending, then the others
    in insertion order.
  - `DefineProp` is a property write. `OwnEntries` is what a spread `{...v}`
    copies. `Truthy` is JavaScript truthiness.
  - `Filter` is `Array.prototype.filter`, and `Distinct` says a list has no
    repeats; the pages share both.
- `cache_manager.dfy` (module `CacheManager`) models the store.
  - A `Map` is the value `Store(entries, order)`.
  - The factory's closure becomes class `Cache`. It has the map as field
    `cache` and the durable blob as field `stored`.
  - The clock is the parameter `now`. A storage write that throws, for
    example on a full quota, is `writeOk == false`; a `removeItem` that
    throws is `removeOk == false`.
  - The store's `get` and `isStale` are the functions `Lookup` and
    `StaleAt`. `Cache.Get` and `Cache.IsStale` read them off the field.
- `app.dfy` (module `App`) models the adapter as class `CacheContext`.
- `normalize.dfy` (module `Normalize`) holds the `normalizeData` that News and
  Assets both define, word for word.
- `news.dfy`, `assets.dfy` and `launch_pad.dfy` model the pages.
  - Each page is a class with the state fields that the modelled code
    updates.
  - What a request returns is a `Response` parameter: `Failed`, or
    `Received(body)`.
- `launches.dfy` (module `Launches`) models the launch list of the LaunchPad
  page.
- `array_sort.dfy` (module `ArraySort`) sorts an array in place. It stands in
  for `Array.prototype.sort`. The method is proved equal to `SortSeq`, a
  stable insertion sort on sequences. `SortSeq` gives a permutation with no
  neighbours out of order. It is stable: pick out any set of values, none of
  which the comparator puts after another, and the sort leaves them in their
  input order, whatever it does with the rest (`SortSeqStable`).

The store's `set` accepts any ttl, and so does the model. With a ttl of 0 an
entry is fresh only at the instant of its write; with a negative ttl it is
stale at once (`SetThenGet`).

## Model

| member | source | states |
|---|---|---|
| CacheManager.Put | src/utils/cacheManager.js:35-40 | `map.set`: the key now holds exactly the new entry, every other key keeps its entry, and a new key goes last in key order |
| CacheManager.Delete | src/utils/cacheManager.js:67-68 | `map.delete`: exactly that key goes, every other entry stays, the remaining keys keep their insertion order (the order list filtered), and deleting an absent key changes nothing |
| CacheManager.WithoutIsFilter | src/utils/cacheManager.js:67-68 | taking a key out of the key order is `filter` on the other keys: they keep their relative order |
| CacheManager.Lookup | src/utils/cacheManager.js:44-59 | `get`: null exactly when the key is absent; otherwise the stored payload and write time, flagged stale exactly when more than ttl ms have passed; a stale entry is still returned |
| CacheManager.SetThenGet | src/utils/cacheManager.js:35-59 | a `set` followed by a `get` at the same instant returns the payload and that instant, and the entry is not stale when ttl >= 0 |
| CacheManager.ReplaceNotMerge | src/utils/cacheManager.js:35-40 | two `set`s on one key leave exactly what the second alone would: nothing of the first write survives |
| CacheManager.AbsentIsStale | src/utils/cacheManager.js:44-65 | for an absent key `get` returns null and `isStale` returns true |
| CacheManager.StaysStale | src/utils/cacheManager.js:61-65 | once a key is stale it stays stale at every later instant, through any run of `set`s on other keys, `clear`s and `clearAll`s |
| CacheManager.EntriesOf | src/utils/cacheManager.js:27 | `Array.from(cache.entries())`: one (key, entry) pair per key, in insertion order |
| CacheManager.Hydrate | src/utils/cacheManager.js:6-18 | `loadFromStorage`: a missing blob, an empty string or text that does not parse gives the empty map |
| CacheManager.PersistRoundTrip | src/utils/cacheManager.js:6-33 | reloading what `saveToStorage` writes gives back the same map: the same keys in the same order, with the same data, timestamps and ttls |
| CacheManager.Cache.constructor | src/utils/cacheManager.js:20-21 | the store starts as whatever the durable blob loads as |
| CacheManager.Cache.SaveToStorage | src/utils/cacheManager.js:24-33 | a successful write replaces the blob with the entry list, which reloads as the current map; a failed write leaves the old blob |
| CacheManager.Cache.Set | src/utils/cacheManager.js:35-42 | the map gains the entry stamped `now` with the given ttl, or 300000 ms when none is given; the map is updated even if the write fails; the blob then reloads as the map; `get` now returns the payload |
| CacheManager.Cache.Clear | src/utils/cacheManager.js:67-70 | the map loses exactly that key, the other keys keeping their order, and is persisted like `set` |
| CacheManager.Cache.ClearAll | src/utils/cacheManager.js:72-75 | the map is emptied first and `getAllKeys()` is empty either way; when `removeItem` succeeds the blob is absent rather than an empty list, and when it throws the old blob stays as it was |
| CacheManager.Cache.GetAllKeys | src/utils/cacheManager.js:83 | every present key exactly once, and no other |
| App.ResolveTtl | src/App.jsx:44-45 | a given non-zero ttl is kept; a missing or zero ttl becomes 3600000 ms; so a zero ttl never reaches the store |
| App.Wrap | src/App.jsx:50-53 | `getCache`'s answer is null exactly for a miss and an object for a hit |
| App.WrapProps | src/App.jsx:52 | in the wrapped object `_cached` reads true, `_timestamp` reads the write time, and every other property reads as the payload's own |
| App.WrapArray | src/App.jsx:52 | an array payload comes back as an object with the keys "0".."n-1" in order, then `_cached` and `_timestamp` |
| App.WrapObject | src/App.jsx:52 | an object payload with no `_` key keeps its properties in order, then gains the two markers |
| App.WrapCanonical | src/App.jsx:52 | the wrapped object lists its properties in JavaScript's enumeration order, so `Object.entries`/`Object.values` see exactly that list |
| App.CacheContext.constructor | src/App.jsx:16 | the item count starts at 0 over the shared store |
| App.CacheContext.UpdateStats | src/App.jsx:20-30 | the item count is the store's key count |
| App.CacheContext.UpdateCache | src/App.jsx:43-48 | stores under `options.key` when given, else under the section, with the resolved ttl (never 0), persists like `set`, and makes the count the store's key count |
| App.CacheContext.GetCache | src/App.jsx:50-53 | null exactly when the store has no entry for the key; otherwise the wrapped payload, the same whether the entry is stale or not |
| App.CacheContext.IsCacheStale | src/App.jsx:55 | true exactly when the key is absent or its entry is past its ttl, as the store says |
| App.CacheContext.ClearCache | src/App.jsx:57-60 | the store loses exactly that key, and the count is the store's key count |
| App.CacheContext.ClearAllCache | src/App.jsx:62-65 | the store has no keys either way; when `removeItem` succeeds the blob is absent and the count is 0, and when it throws the old blob stays and the count is left as it was, since `setCacheStats` is never reached |
| Normalize.UnmarkedValues | src/pages/News.jsx:28-30 | every value it gives comes from a property whose key does not start with `_`, every such property's value is among them, and there are no more of them than properties |
| Normalize.UnmarkedValuesAppend | src/pages/News.jsx:28-30 | the filter works piece by piece: the values of two lists of properties are the values of the first followed by those of the second, so order is kept |
| Normalize.UnmarkedValuesOfUnmarked | src/pages/News.jsx:28-30 | when no key starts with `_`, nothing is dropped: the result is `Object.values` |
| Normalize.UnmarkedValuesOfMarked | src/pages/News.jsx:28-30 | when every key starts with `_`, everything is dropped |
| Normalize.NormalizeData | src/pages/News.jsx:25-31 | a falsy value gives []; an array is returned as is; an object gives the values of its properties whose key does not start with `_` (the same helper as src/pages/Assets.jsx:24-30) |
| Normalize.NormalizeRecoversArray | src/pages/News.jsx:25-31 | an array read back through `getCache` normalizes to the array itself, stale or not |
| Normalize.NormalizeRecoversObjectValues | src/pages/Assets.jsx:24-30 | an object payload with no `_` key read back through `getCache` normalizes to the list of its values |
| Normalize.CachedListReadsBack | src/App.jsx:50-53 | whatever store it is written into, with whatever ttl, a cached list reads back through `getCache` and `normalizeData` as itself at any later time |
| News.CachedPosts | src/pages/News.jsx:51-62 | the cached feed is used exactly when the call is not forced and the entry normalizes to a non-empty list; staleness plays no part |
| News.CachedFeedUsedEvenIfStale | src/pages/News.jsx:51-62 | a non-empty feed in the store is shown as it was cached, however old it is |
| News.ForcedRefreshSkipsCache | src/pages/News.jsx:52 | a forced fetch never takes the cached feed |
| News.IsStickied | src/pages/News.jsx:67 | reading `item.data.stickied` throws exactly when the item is not an object, has no `data` or has a null `data` |
| News.DropStickied | src/pages/News.jsx:67 | the filter throws exactly when some item cannot be read; otherwise it is `filter` on the posts that are not stickied: each kept as often as it occurs, in order, and no other |
| News.DropStickiedKeeps | src/pages/News.jsx:67 | a post survives the stickied filter exactly as often as it was fetched when it reads as not stickied, and not at all otherwise; a value is kept only if it was fetched and is not stickied |
| News.EnrichProps | src/pages/News.jsx:68-71 | the stamped post reads `_fetchedAt` as the fetch time and every other property as the original's |
| News.EnrichAll | src/pages/News.jsx:68-71 | every post is stamped, none is added or dropped, and the order is kept |
| News.EnrichKeepsStickied | src/pages/News.jsx:67-71 | stamping a readable post does not change whether it is stickied |
| News.FreshPostsNotStickied | src/pages/News.jsx:65-71 | every post a request yields is not stickied and carries a `_fetchedAt` stamp equal to the given fetch time |
| News.NewsPage.constructor | src/pages/News.jsx:16-21 | the page starts with no posts, no cached flag, no error and no paging token |
| News.NewsPage.FetchNews | src/pages/News.jsx:42-99 | the cached feed when the rule allows, leaving the store and the count alone; else the fresh posts, written back for ten minutes, with the count the store's key count; else, on failure, a non-empty cached feed with the error cleared, or the error banner with the posts unchanged |
| News.NewsPage.ShowCached | src/pages/News.jsx:53-61 | shows the cached posts, flags them as cached, and takes the paging token from the last one |
| News.NewsPage.ShowFresh | src/pages/News.jsx:73-78 | shows the posts, clears the error, advances the token and writes the feed back for ten minutes; the count is then the store's key count |
| News.NewsPage.ShowFallback | src/pages/News.jsx:83-94 | after a failure, a non-empty cached feed is shown without an error; otherwise the error text is set and the posts stay |
| News.NewsPage.LoadMore | src/pages/News.jsx:105-124 | with a paging token and a non-empty page of posts that are not stickied, the feed becomes the previous posts followed by the new ones, that whole list is cached and the count is the store's key count; otherwise nothing changes |
| News.NewsPage.AppendPosts | src/pages/News.jsx:113-120 | the feed becomes the previous posts followed by the new page, that whole list is written back for ten minutes, the token moves to the last new post and the count is the store's key count |
| News.NewsPage.HandleRefresh | src/pages/News.jsx:126-129 | the cached feed is dropped first, so a successful refresh stores the fresh feed and advances the token, and a failed one shows the error, keeps the token and never shows the dropped feed; the clear and the write each persist or fail on their own, and the blob is the store after the last one that went through (refreshed, cleared, or the old blob); the count is the store's key count |
| Assets.GetEndpoint | src/pages/Assets.jsx:32-59 | for SPACEX there is an endpoint exactly for the eleven categories; for any other agency there is one exactly for `rockets` and `launchpads` |
| Assets.SpaceXEndpoints | src/pages/Assets.jsx:33-48 | each SPACEX category maps to `https://api.spacexdata.com/v4/<category>`, with `info` at `/company` |
| Assets.OtherAgencyEndpoints | src/pages/Assets.jsx:51-58 | any other agency gets the Launch Library launcher and pad URLs, with agency id 44 for NASA and 31 otherwise |
| Assets.UnknownCategoryHasNoEndpoint | src/pages/Assets.jsx:47-57 | a category outside the table has no endpoint for any agency |
| Assets.Supported | src/pages/Assets.jsx:108 | the filter keeps exactly the categories that have an endpoint |
| Assets.SupportedIsFilter | src/pages/Assets.jsx:108 | the supported categories are `filter`'s: in their listed order, each as often as it is listed |
| Assets.SupportedAll | src/pages/Assets.jsx:108 | when every category has an endpoint the filter keeps the list as it is |
| Assets.SupportedCatsByAgency | src/pages/Assets.jsx:94-108 | SPACEX shows all eleven tiles in order; any other agency shows exactly `["rockets", "launchpads"]` |
| Assets.CacheKeyInjective | src/pages/Assets.jsx:62 | for agency names without an underscore, different (agency, category) pairs never share an `ASSETS_<agency>_<category>` key |
| Assets.Results | src/pages/Assets.jsx:80-85 | SPACEX's array answer is kept and a single record is wrapped as a one-element list; from the Launch Library a truthy `results` property is returned as it is, and an absent or falsy one gives []; only a null Launch Library body throws |
| Assets.AssetsPage.constructor | src/pages/Assets.jsx:17-20 | the page starts on SPACEX with no category open and no items |
| Assets.AssetsPage.SelectAgency | src/pages/Assets.jsx:123-126 | the agency buttons change the agency and nothing else |
| Assets.AssetsPage.LoadCategory | src/pages/Assets.jsx:61-92 | a cached entry, stale or not, is shown without a request; with no endpoint nothing happens; a successful answer is shown and cached for an hour under the category key, with the count the store's key count; a failed one opens the category empty |
| ArraySort.InsertionSort | src/pages/LaunchPad.jsx:125-131 | the array ends as the stable insertion sort of what it held: a permutation of it, with no two neighbours out of order for the comparator |
| ArraySort.SortSeqPermutes | src/pages/LaunchPad.jsx:125-131 | the insertion sort returns a permutation of its input |
| ArraySort.SortSeqInOrder | src/pages/LaunchPad.jsx:125-131 | for a comparator that never puts two values each after the other, no two neighbours of the result are out of order |
| ArraySort.SortSeqKeepsTies | src/pages/LaunchPad.jsx:125-131 | a list none of whose values the comparator puts after another is returned unchanged |
| ArraySort.SortSeqStable | src/pages/LaunchPad.jsx:125-131 | stability: the values any predicate picks out, none of which the comparator puts after another, come out of the sort in their input order, whatever the other values do |
| ArraySort.FilterInsert | src/pages/LaunchPad.jsx:125-131 | seen through such a predicate, inserting a value appends it when the predicate keeps it and changes nothing when it does not |
| ArraySort.InsertSplit | src/pages/LaunchPad.jsx:125-131 | an insertion puts the value between a front and a back part of the list, and every value of the back part compares after it |
| ArraySort.InsertInOrder | src/pages/LaunchPad.jsx:125-131 | inserting a value into an ordered list keeps it ordered |
| Js.Filter | src/pages/LaunchPad.jsx:112-123 | `filter`: each value that passes is kept as often as it occurs, and no other value is kept |
| Js.FilterAppend | src/pages/News.jsx:67 | `filter` works piece by piece over a concatenation, so the kept values stay in their order |
| Js.FilterUnless | src/pages/News.jsx:67 | a `filter` whose test may throw: it throws exactly when the test throws on some element |
| Js.FilterUnlessFilters | src/pages/News.jsx:67 | when no test throws, the result is `filter` keeping the elements whose test reads false, in order |
| Launches.Select | src/pages/LaunchPad.jsx:110-124 | the search and agency filters together keep exactly the launches that match both, each as often as it occurs |
| Launches.ComparatorAsymmetric | src/pages/LaunchPad.jsx:125-131 | each of the three sort orders never puts a launch both before and after another |
| Launches.FilteredLaunches | src/pages/LaunchPad.jsx:110-133 | the result holds exactly the launches that match the search term and the agency, each as often as it occurs; it is the stable insertion sort of them by the chosen order, so no neighbours are out of order |
| Launches.ByTimeIsChronological | src/pages/LaunchPad.jsx:129 | sorted by time, a list whose launches all have valid dates runs from the earliest `net` to the latest |
| Launches.Agencies | src/pages/LaunchPad.jsx:135-138 | exactly the non-empty string provider names among the launches, each once, in strictly ascending code-point order |
| Launches.Decompose | src/pages/LaunchPad.jsx:145-148 | hours are below 24, minutes and seconds below 60 |
| Launches.DecomposeAddsUp | src/pages/LaunchPad.jsx:145-148 | days, hours, minutes and seconds add up to the time left, to the second |
| Launches.GetTMinus | src/pages/LaunchPad.jsx:140-143 | no date gives "TBD"; a date already passed gives "LAUNCHED" |
| Launches.DecomposeUnderADay | src/pages/LaunchPad.jsx:145-148 | under a day to go, the parts are exactly the hours, minutes and seconds the time left spans |
| Launches.DecomposeFromADay | src/pages/LaunchPad.jsx:145-148 | from a day on, the parts are exactly the days, hours, minutes and seconds the time left spans |
| Launches.ClockUnderADay | src/pages/LaunchPad.jsx:140-151 | under a day to go the countdown reads "Hh Mm Ss", the time left truncated to the second |
| Launches.DaysFromADay | src/pages/LaunchPad.jsx:140-150 | from a day on the countdown reads "Dd Hh Mm", the time left truncated to the minute |
| LaunchPad.NormalizeData | src/pages/LaunchPad.jsx:28-33 | as written: a falsy value gives [], an array is returned as is, an object gives all its values with no `_` filter, and a string gives [] |
| LaunchPad.NormalizeLeaksMarkers | src/pages/LaunchPad.jsx:28-33 | as written, a cached manifest read back through `getCache` comes out as the launches followed by `true` and the write time |
| LaunchPad.CachedManifestReadsBack | src/pages/LaunchPad.jsx:28-33 | as the page reads it, a cached manifest comes back from the store as the launches followed by `true` and the write time, stale or not |
| LaunchPad.UseCachedManifest | src/pages/LaunchPad.jsx:42-54 | the cached manifest is used exactly when the call is not forced, the entry is not stale and the page's own normalizeData (markers kept) gives a non-empty list |
| LaunchPad.FreshManifestShownWithMarkers | src/pages/LaunchPad.jsx:45-54 | a manifest within its ttl is shown, as the launches followed by `true` and the write time |
| LaunchPad.EmptyManifestNeverRefetched | src/pages/LaunchPad.jsx:45-54 | an empty manifest within its ttl is not fetched again: it is shown as `[true, write time]` |
| LaunchPad.StaleManifestRefetched | src/pages/LaunchPad.jsx:43-45 | a manifest past its ttl is fetched again |
| LaunchPad.UseCachedManifestIntended | src/pages/LaunchPad.jsx:42-54 | the rule with the marker-dropping normalizeData of the other pages: used exactly when not forced, not stale and non-empty once the markers are dropped |
| LaunchPad.IntendedFreshManifestUsed | src/pages/LaunchPad.jsx:45-54 | under the intended rule a non-empty manifest within its ttl is shown exactly as it was cached |
| LaunchPad.IntendedEmptyManifestRefetched | src/pages/LaunchPad.jsx:46-47 | under the intended rule an empty cached manifest is fetched again, fresh or not |
| LaunchPad.Upcoming | src/pages/LaunchPad.jsx:62-63 | throws exactly when a result is null; otherwise keeps each launch whose `net` is set and strictly after the current time, as often as it occurs, and no other |
| LaunchPad.StampKeepsNet | src/pages/LaunchPad.jsx:64-67 | stamping a launch with `_fetchedAt` leaves its `net` as it was |
| LaunchPad.StampKeepsUpcoming | src/pages/LaunchPad.jsx:62-67 | a stamped launch is upcoming exactly when the launch is |
| LaunchPad.FreshManifestUpcoming | src/pages/LaunchPad.jsx:56-67 | every launch a request yields is upcoming and carries the fetch time |
| LaunchPad.LaunchPadPage.constructor | src/pages/LaunchPad.jsx:14-15 | the page starts with no launches and no cached flag |
| LaunchPad.LaunchPadPage.FetchManifest | src/pages/LaunchPad.jsx:35-91 | a fresh cached manifest that the page's normalizeData makes non-empty is shown, markers included, and the store is left alone; else the upcoming launches are shown and written back for fifteen minutes; a body without a `results` array changes nothing; a failure shows whatever manifest is cached, stale or empty, markers included, or leaves the list when there is none |
| LaunchPad.LaunchPadPage.ShowFresh | src/pages/LaunchPad.jsx:69-76 | shows the launches, clears the cached flag and writes them back for fifteen minutes |
| LaunchPad.LaunchPadPage.ShowFallback | src/pages/LaunchPad.jsx:79-86 | after a failure any cached manifest is shown, read with the page's normalizeData and so with the markers, and flagged as cached; with none the list stays |
| LaunchPad.LaunchPadPage.HandleRefresh | src/pages/LaunchPad.jsx:97-100 | the cached manifest is dropped first; a successful refresh stores the fresh manifest, and a failed one leaves the list as it was, with no manifest to fall back on; the blob then holds the resulting store, or the old blob when the writes fail |

## Left out

- The network is not modelled. Each request's outcome is a `Response` parameter, and the model does not tie it to the URL requested. `src/api/nasa.js` is not part of this model.
- Interleaving is not modelled. Asynchronous requests, `setInterval` and the order in which React applies state updates are concurrency in a foreign runtime. Each page method runs to completion in one step.
- `localStorage` is the `stored` field. `JSON.stringify` and `JSON.parse` are not modelled byte by byte: the blob is the entry list itself, and an unparseable text is `Malformed`. A blob that parses but whose entries are not `{data, timestamp, ttl}` records cannot be stated: `loadFromStorage` (`src/utils/cacheManager.js:6-18`) would load such values as they are, and the model's entries are always records.
- `Date.now()` and `new Date()` are integer millisecond parameters (`now`, `respondedAt`). The ISO text of `new Date().toISOString()` is a string parameter (`fetchedAt`, `fetchTime`).
- Launches.DateOf: `new Date(string)` is the parameter `parse`, whatever the engine's date parsing does. An array or object `net` reads as an invalid date in the model, while JavaScript first converts it to a primitive: `new Date(["2024-07-01"])` is a valid date, so such a launch can be kept by the upcoming filter and is not. A number `net` is always a valid date in the model, while `new Date(n)` is Invalid Date beyond 8.64e15 ms either side of the epoch; such a launch would be dropped by the upcoming filter and is not.
- Launches.FilteredLaunches: `localeCompare` is the parameter `after`, which the model requires only to be asymmetric. `Array.prototype.sort` is modelled by a stable insertion sort (`ArraySort.SortSeq`), as the engine's sort is stable. For a consistent comparator (a strict weak order) any two stable sorts give the same array, so the model's order is the engine's; that uniqueness is not itself proved here. Sorting by time a list that mixes valid and invalid `net` dates gives an inconsistent comparator, because an invalid date compares as equal to everything. The engine's order is then implementation-defined and can differ from the model's, and may even leave neighbours out of order. The model promises only its own result: the stable insertion sort of the selected launches, with no two neighbours out of order.
- News.EnrichAll: every post of one request gets the same `_fetchedAt`. The page reads the clock once per post (`src/pages/News.jsx:70`, `src/pages/News.jsx:113`), so its stamps can differ by the time the `map` takes.
- CacheManager.Cache.ClearAll: when `removeItem` throws, the exception also leaves `clearAll`. Its caller is `clearAllCache`, which the model follows (`App.CacheContext.ClearAllCache`). Beyond that, the exception reaches the UI event handler, which is not modelled.
- Js.Json: a number is `JNum` holding an integer. A payload or a `net` with a fractional number such as 1.5 cannot be stated. The clock readings and ttls the code computes with are whole milliseconds.
- Launches.GetTMinus: the model takes the date already parsed, with `None` for a missing one. An unparseable date string, which the page renders as `NaNh NaNm NaNs`, is not modelled.
- Launches.Agencies: names are compared code point by code point (Dafny characters are Unicode scalar values), while the default `sort` compares UTF-16 code units; the two orders differ only between a character beyond U+FFFF and one from U+E000 to U+FFFF. A truthy provider name that is not a string, such as the number 5, is kept and listed by the page, while the model reads it as "" and drops it.
- Launches.NameText: a non-string name or provider reads as "", where the page would throw calling `toLowerCase` on a number. A null launch in the list reads as a launch without fields, where the page would throw reading its `name`.
- Js.LowerAscii: `toLowerCase` folds ASCII letters only. Unicode case mapping is left out.
- UI state with no bearing on the cache is left out: `loading`, `isRefreshing`, `loadingMore`, `lastFetchTime`, `failedImages`, `expandedId`, `selectedItem`, the ticking `now` interval and everything rendered.
- The guards for a missing cache context (`if (!getCache) return`, `isCacheStale ? … : true`, `if (clearCache)`, `if (updateCache)`) are not modelled. App always provides all of them.
- `calculateMemoryUsage` (`src/App.jsx:32-41`) and `memoryUsage` are left out. They estimate bytes through `JSON.stringify` and float `toFixed`.
- `src/pages/OrbitTracker.jsx`, `src/pages/Home.jsx`, `getTimeAgo` and the UI files are not part of this model. They are map and UI glue, or float formatting.
- LaunchPad.Upcoming: a null anywhere in the results counts as a throw. The page throws when it reaches the first null, which ends in the same catch.
- News.NewsPage.LoadMore: the `loadingMore` guard against a second concurrent call is left out, together with the concurrency it protects against.

## Findings

| source | as written | input that shows it | evidently intended | confidence | as-written member | corrected member |
|---|---|---|---|---|---|---|
| src/pages/LaunchPad.jsx:28-33 | `normalizeData` takes `Object.values` of the object `getCache` returns, with no filter for the `_cached`/`_timestamp` markers | the empty manifest `[]` cached at `ts` and still fresh, then `fetchManifest(false)`: it reads back as `[true, ts]`, which is non-empty, so it is shown as the launch list and no request is made; any cached `xs` is shown as `xs + [true, ts]`, on the cache path and on the catch path | drop `_`-prefixed keys as News and Assets do, so the cached manifest reads back as itself and an empty one is fetched again | high, not executed | LaunchPad.EmptyManifestNeverRefetched | LaunchPad.IntendedEmptyManifestRefetched |

The page members model the code as written: `LaunchPad.UseCachedManifest`,
`LaunchPad.LaunchPadPage.FetchManifest` and `ShowFallback` read the cache with
`LaunchPad.NormalizeData`, which keeps the markers
(`LaunchPad.NormalizeLeaksMarkers`, `LaunchPad.FreshManifestShownWithMarkers`).
The intended rule is `LaunchPad.UseCachedManifestIntended`. It reads the cache
with `Normalize.NormalizeData`, for which `Normalize.NormalizeRecoversArray`
proves that the cached list reads back as itself.
