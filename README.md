# Offline-first restaurant app: a Dafny model

This project models the client-side core of a restaurant listing and review
progressive web app: the service worker that routes and caches requests, the
`DBHelper` queries over the fetched restaurant list, the page scripts that keep
the shown restaurant, reviews and restaurant list, and the IndexedDB object
stores those scripts write. It proves what each of those promises.

- `service_worker.dfy` (module `ServiceWorker`) covers `service-worker.js`.
  - Cache Storage is a value `Storage`: the cache names in creation order, and per name a map from URL to response. Pure functions say what each step does to that value.
  - The class `CacheStorage` holds the same state in fields. Its methods (`Open`, `Put`, `Delete`, `ServeFromCache`, `CheckAllCaches`, `HandleFetch`, `OnInstalling`, `OnActivate`) change it step by step and are proved equal to those functions.
  - The network is a map from URL to response; a URL it does not hold is a failing fetch.
  - A response carries an `ok` flag: whether its status is in the range 200-299. `addAll` rejects a response without it, so a 404 fails install. `serveFromCache` and `checkAllCaches` take whatever `fetch` resolves with, a 404 included.
  - The worker's origin is a parameter of install: `addAll` resolves each manifest path against it, so `"/"` is fetched and stored as `origin + "/"`.
- `db_helper.dfy` (module `DBHelper`) covers `public/js/dbhelper.js`.
  - Every query takes the result of one `fetchRestaurants()` call as an `Option`; `None` stands for the `false` it returns when the fetch throws.
  - It holds the filters, the lookup by id under loose equality, the de-duplication by `indexOf`, and the URL builders.
- `js_values.dfy` (module `JsValues`) gives the JavaScript conversions the app relies on: `String(n)`, `Number(s)` inside `==`, `parseInt`, `startsWith` and `endsWith`.
- `restaurant_info.dfy` (module `RestaurantInfo`) covers `public/js/restaurant_info.js`.
  - `getParameterByName` is modelled as a parser that follows the regular expression `[?&]name(=([^&#]*)|&|#|$)`.
  - The class `RestaurantPage` holds `self.restaurant`, `self.reviews` and the stores the page writes.
- `main_page.dfy` (module `MainPage`) covers `public/js/main.js`.
  - The class `Page` holds `self.restaurants`, `self.markers`, the `restaurants` store (keyed by `id`) and the `reviews` store.
- `object_store.dfy` (module `ObjectStore`) models the keyed `put` loop (`PutAll`) and `getAll` on the `restaurants` store, which lists records in ascending key order.

The model follows the code where it departs from the app's offline-first design:

- No read-through coordinator exists. `fetchRestaurants` always goes to the network, and no write-queue replay exists: nothing reads `offlineStore` back.
- `checkAllCaches` lets a network failure reject. It does not answer with an empty response (`AnyCacheReply` gives `Rejected`).
- `serveFromCache` calls `caches.open` first, and that call creates a missing cache. So a miss with a failing network modifies no existing cache, but may add an empty cache of that name (`ServeMiss`).
- `getCachedRestaurants` never shows the cached list. See "Findings".

## Model

| member | source | states |
|---|---|---|
| ServiceWorker.ImageStorageKey | service-worker.js:61 | the storage key of a URL is always a prefix of that URL |
| ServiceWorker.ImageKeyStripsSizeSuffix | service-worker.js:61 | `stem-<digits>px.jpg` (one or more digits) is stored under `stem` |
| ServiceWorker.ImageKeyChangesOnlySizeVariants | service-worker.js:61 | conversely, a URL whose key differs from it is exactly `key-<digits>px.jpg` |
| ServiceWorker.ImageKeyVariantExample | service-worker.js:61 | `/img/1-800px.jpg` is stored under `/img/1` |
| ServiceWorker.ImageKeyKeptExamples | service-worker.js:61 | `/img/1.webp`, `/img/1.jpg` and `/img/1px.jpg` are their own keys |
| ServiceWorker.Classify | service-worker.js:56-73 | a cache-first route only ever names the image or the maps cache |
| ServiceWorker.ClassifyPartitions | service-worker.js:59-72 | routing in priority order. Same-origin `/img/` requests go to the image cache under their image key. Otherwise a maps URL goes to the maps cache under the literal URL. Everything else goes to the any-cache lookup. Exactly one of the three applies, and the static cache is never a cache-first target |
| ServiceWorker.SizeVariantsShareEntry | service-worker.js:59-62 | every size variant of one same-origin image is routed to the same image-cache entry |
| ServiceWorker.Opened | service-worker.js:87 | `caches.open` keeps storage well formed, makes the name present and keeps every existing cache |
| ServiceWorker.Stored | service-worker.js:95 | `cache.put` keeps storage well formed |
| ServiceWorker.FilterOut | service-worker.js:42 | the names kept are exactly those not dropped, and stay duplicate-free |
| ServiceWorker.Deleted | service-worker.js:42 | `caches.delete` keeps storage well formed |
| ServiceWorker.StaleNames | service-worker.js:41 | the filter keeps exactly the listed names with the `restaurant-` prefix that `allCaches` does not hold |
| ServiceWorker.Pruned | service-worker.js:40-42 | after deleting a list of names in turn, no listed cache is left, and every cache left is an old one with its old contents |
| ServiceWorker.PrunedSpec | service-worker.js:40-42 | deleting a list of names in turn keeps the other names in order, with their contents, and keeps storage well formed |
| ServiceWorker.Activated | service-worker.js:38-43 | after activation no stale name is listed, and in well-formed storage no stale cache is left |
| ServiceWorker.ActivateDeletesExactlyStale | service-worker.js:38-43 | activation deletes exactly the stale caches. Current caches and caches without the prefix survive with unchanged contents |
| ServiceWorker.ActivateIdempotent | service-worker.js:38-43 | activating twice deletes nothing more |
| ServiceWorker.FirstMatch | service-worker.js:109 | `caches.match` answers nothing exactly when no cache holds the URL; otherwise it answers some cache's entry for it |
| ServiceWorker.Served | service-worker.js:86-100 | serving keeps storage well formed and leaves the named cache present. Whatever is answered is then stored in that cache under the key. The answer is `undefined` only when the network fails |
| ServiceWorker.ServeHit | service-worker.js:87-92 | a hit returns the stored response and leaves storage unchanged, whatever the network holds |
| ServiceWorker.ServeMiss | service-worker.js:93-99 | on a miss with a working network, the response is stored under the key in the named cache only and returned. On a miss with a failing network, the answer is `undefined` and no existing cache changes |
| ServiceWorker.ServeThenHit | service-worker.js:86-100 | after an answered request, a second request with the same key is a hit that changes nothing |
| ServiceWorker.AnyCacheReply | service-worker.js:108-115 | the any-cache lookup never answers `undefined` |
| ServiceWorker.AnyCacheSpec | service-worker.js:108-115 | the lookup rejects exactly when no cache and not the network holds the URL, and answers a cached entry whenever one exists |
| ServiceWorker.PutInOrder | service-worker.js:17-25 | putting URLs in turn leaves the cache holding exactly its old URLs and the new ones, and the last put wins |
| ServiceWorker.PutInOrderFromNetwork | service-worker.js:17-25 | storing the fetched manifest adds exactly its URLs, each with the network's response, and keeps the other entries |
| ServiceWorker.Installed | service-worker.js:15-26 | install keeps storage well formed and leaves the static cache present, whether or not it succeeds |
| ServiceWorker.InstallAllOrNothing | service-worker.js:15-26 | install succeeds exactly when every manifest path, resolved against the worker's origin, is fetched with a 2xx status. Then all seven absolute URLs are in the static cache with the network's responses. A failed install stores nothing, and no other cache changes |
| ServiceWorker.InstalledShellServedOffline | service-worker.js:108-115 | after a successful install, the any-cache lookup answers every resolved manifest URL from a cache, whatever the network holds later |
| ServiceWorker.FetchAll | service-worker.js:17-25 | the fetch half of `addAll`: it gets every response in order, or fails exactly when some URL cannot be fetched or answers with a status outside 200-299 |
| ServiceWorker.CacheStorage.constructor | service-worker.js:15-16 | the object starts as the given well-formed storage value |
| ServiceWorker.CacheStorage.Open | service-worker.js:16 | the new state is `Opened` of the old one |
| ServiceWorker.CacheStorage.Match | service-worker.js:88 | the answer is the open cache's entry for the URL, if any |
| ServiceWorker.CacheStorage.Put | service-worker.js:95 | the new state is `Stored` of the old one |
| ServiceWorker.CacheStorage.Delete | service-worker.js:42 | the new state is `Deleted` of the old one |
| ServiceWorker.CacheStorage.MatchAny | service-worker.js:109 | searching the caches one by one in creation order gives `FirstMatch` |
| ServiceWorker.CacheStorage.ServeFromCache | service-worker.js:86-100 | the new state and the answer are those of `Served` |
| ServiceWorker.CacheStorage.CheckAllCaches | service-worker.js:108-115 | it reads and never writes; its answer is `AnyCacheReply`, and a rejection means no cache holds the URL |
| ServiceWorker.CacheStorage.HandleFetch | service-worker.js:56-73 | the listener serves cache-first along the route `Classify` picks, and leaves storage unchanged on the any-cache route |
| ServiceWorker.CacheStorage.PutEach | service-worker.js:17-25 | the store half of `addAll`: only the named cache changes, to `PutInOrder` of the URLs and responses |
| ServiceWorker.CacheStorage.OnInstalling | service-worker.js:15-26 | for a worker at a given origin, the new state and the success flag are those of `Installed` |
| ServiceWorker.CacheStorage.OnActivate | service-worker.js:38-43 | deleting the stale names one by one gives `Activated` of the old state |
| DBHelper.Where | public/js/dbhelper.js:63 | the filter is no longer than its input and keeps only matching members of it |
| DBHelper.WhereMembers | public/js/dbhelper.js:63 | the filter keeps exactly the restaurants whose field has the value |
| DBHelper.WhereEmbedding | public/js/dbhelper.js:63 | the kept restaurants sit at increasing positions of the input |
| DBHelper.WhereIsSubsequence | public/js/dbhelper.js:63 | the filter is an order-preserving sublist of its input |
| DBHelper.WhereAppend | public/js/dbhelper.js:63 | filtering distributes over concatenation |
| DBHelper.WhereAllMatching | public/js/dbhelper.js:63 | a list whose every element matches is returned unchanged |
| DBHelper.WhereIdempotent | public/js/dbhelper.js:63 | filtering twice by one value is filtering once |
| DBHelper.WhereCommutes | public/js/dbhelper.js:86-91 | the cuisine and neighborhood filters commute |
| DBHelper.FindById | public/js/dbhelper.js:52 | `find` answers nothing exactly when no id is loosely equal; otherwise it answers the first restaurant whose id is |
| DBHelper.FetchRestaurantById | public/js/dbhelper.js:48-53 | `false` exactly when the fetch fails. `undefined` means no id loosely equals; a found record is in the list and matches |
| DBHelper.FindByDecimalId | public/js/dbhelper.js:52 | looking up by the decimal text of an id finds what looking up by the number finds (`'3'` matches `3`) |
| DBHelper.FetchRestaurantBy | public/js/dbhelper.js:59-75 | `false` exactly for an empty argument. The promise rejects exactly when the argument is non-empty and the fetch failed. Otherwise it returns exactly the matching restaurants |
| DBHelper.FetchRestaurantByCuisineAndNeighborhood | public/js/dbhelper.js:81-93 | `false` exactly when the fetch failed |
| DBHelper.FilterAllAllIsIdentity | public/js/dbhelper.js:86-92 | `('all', 'all')` returns the fetched list unchanged |
| DBHelper.CombinedFilterSpec | public/js/dbhelper.js:86-91 | the result is an order-preserving sublist holding exactly the restaurants that match every dimension not set to `'all'` |
| DBHelper.OneSidedFilters | public/js/dbhelper.js:86-91 | `('all', n)` filters by neighborhood only, `(c, 'all')` by cuisine only, and `(c, n)` equals the cuisine filter of the neighborhood filter |
| DBHelper.Project | public/js/dbhelper.js:104 | the projection has one value per restaurant, its field, in order |
| DBHelper.IndexOf | public/js/dbhelper.js:106 | `indexOf` is -1 or an index holding the value |
| DBHelper.IndexOfSpec | public/js/dbhelper.js:106 | `indexOf` is -1 exactly for absent values, and otherwise no earlier index holds the value |
| DBHelper.FirstOccurrencesFrom | public/js/dbhelper.js:106 | the pass over a suffix keeps at most one value per position |
| DBHelper.Distinct | public/js/dbhelper.js:106 | the de-duplicated list is no longer than the list, holds only its values, and starts with its first value |
| DBHelper.FirstOccurrencesFromMembers | public/js/dbhelper.js:106 | the suffix pass keeps exactly the values first seen at or after its start |
| DBHelper.FirstOccurrencesFromOrdered | public/js/dbhelper.js:106 | the suffix pass lists values in order of first occurrence |
| DBHelper.DistinctMembers | public/js/dbhelper.js:106 | the de-duplicated list holds exactly the values of the list |
| DBHelper.DistinctFirstOccurrenceOrder | public/js/dbhelper.js:106 | the de-duplicated list is in order of first occurrence and has no duplicates |
| DBHelper.DistinctOfDuplicateFree | public/js/dbhelper.js:106 | a duplicate-free list is its own de-duplication |
| DBHelper.DistinctIdempotent | public/js/dbhelper.js:106 | de-duplicating the de-duplicated list changes nothing |
| DBHelper.FetchDistinct | public/js/dbhelper.js:99-121 | `false` exactly when the fetch failed |
| DBHelper.FetchDistinctSpec | public/js/dbhelper.js:99-121 | the values are duplicate-free, exactly those some restaurant carries, and in order of first occurrence |
| DBHelper.FetchNeighborhoods | public/js/dbhelper.js:99-107 | `false` exactly on fetch failure; otherwise every neighborhood of some restaurant, once |
| DBHelper.FetchCuisines | public/js/dbhelper.js:113-121 | `false` exactly on fetch failure; otherwise every cuisine of some restaurant, once |
| DBHelper.UrlForRestaurant | public/js/dbhelper.js:127-129 | the link starts with `./restaurant.html?id=` (what follows is the id: see `RestaurantInfo.RoundTripRestaurantId`) |
| DBHelper.JpgUrlForRestaurant | public/js/dbhelper.js:134-136 | `/img/` + photograph + `.jpg` |
| DBHelper.WebpUrlForRestaurant | public/js/dbhelper.js:141-143 | `/img/` + photograph + `.webp` |
| DBHelper.PreviewUrlForRestaurant | public/js/dbhelper.js:148-150 | `/img/previews/` + photograph + `.jpg` |
| DBHelper.ImageUrlsDistinct | public/js/dbhelper.js:134-143 | a restaurant's jpg, webp and preview URLs are pairwise different. Two restaurants share a jpg URL exactly when they share a photograph |
| JsValues.IntToDecimal | public/js/dbhelper.js:128 | `${id}` is a non-empty run of digits after an optional leading minus, and the minus is there exactly when the id is negative |
| JsValues.StringToNumber | public/js/dbhelper.js:52 | `Number('')` is 0, and any other text converts to a number only when it holds a digit |
| JsValues.LooselyEquals | public/js/dbhelper.js:52 | a number is loosely equal to its own decimal text, and to `''` exactly when it is 0 |
| JsValues.StringToNumberOfDecimal | public/js/dbhelper.js:52 | `Number(String(n)) == n`, which is what makes `r.id == id` match a string id |
| JsValues.ParseIntOfDecimal | public/js/restaurant_info.js:19 | `parseInt(String(n)) == n` |
| JsValues.ParseInt | public/js/restaurant_info.js:19 | `parseInt` yields a number only for text holding a digit |
| JsValues.ParseSigned | public/js/restaurant_info.js:19 | after the white space, a number is read only when the text holds a digit, and a sign is read only when a digit follows it directly |
| JsValues.ParseUnsigned | public/js/restaurant_info.js:19 | after the sign, a number is read only when the text starts with a digit |
| JsValues.ReadDigits | public/js/restaurant_info.js:19 | a number is read only when the text starts with a digit of the base |
| JsValues.ParseIntSkipsWhiteSpace | public/js/restaurant_info.js:19 | leading ECMAScript white space and line terminators do not change the result |
| JsValues.ParseIntHexPrefix | public/js/restaurant_info.js:19 | after `0x` or `0X`, the hexadecimal digits up to the first non-hex character are read in base 16 |
| JsValues.ParseIntIgnoresTail | public/js/restaurant_info.js:19 | decimal digits are read up to the first non-digit, unless they are the `0` of a `0x` prefix |
| JsValues.NumberAgreesWithParseInt | public/js/restaurant_info.js:19 | where `Number` reads a non-empty text as an integer, `parseInt` reads the same integer |
| JsValues.ParseIntHexExample | public/js/restaurant_info.js:19 | `parseInt('0x10')` is 16 |
| JsValues.ParseIntWhiteSpaceExample | public/js/restaurant_info.js:19 | `parseInt(' 7')` is 7 |
| RestaurantInfo.MatchesAt | public/js/restaurant_info.js:282 | a match is `?` or `&` followed by the whole name, inside the URL |
| RestaurantInfo.FirstMatchFrom | public/js/restaurant_info.js:282-283 | `exec` finds the leftmost match at or after the start, or reports that none exists |
| RestaurantInfo.ValueRun | public/js/restaurant_info.js:282 | the group `([^&#]*)` runs up to the first `&` or `#`, or the end |
| RestaurantInfo.PlusToSpace | public/js/restaurant_info.js:288 | every `+` becomes a space; nothing else changes |
| RestaurantInfo.DecodeUriComponent | public/js/restaurant_info.js:288 | decoding never lengthens the text, text without `%` decodes to itself, and only a `%` can make it throw |
| RestaurantInfo.DecodedValue | public/js/restaurant_info.js:288 | a value is never `null`; without `%` it is the value with `+` read as space, and it can throw only when it holds a `%` |
| RestaurantInfo.ValueAfterName | public/js/restaurant_info.js:286-288 | after a match the answer is never `null`, and it is non-empty only when `=` follows the name |
| RestaurantInfo.GetParameterByName | public/js/restaurant_info.js:278-289 | `null` exactly when the name appears nowhere right after `?`/`&` and right before `=`, `&`, `#` or the end, in the given URL or, when that is empty, the page's own |
| RestaurantInfo.ParameterValueAt | public/js/restaurant_info.js:282-288 | when the leftmost match carries `=value`, the answer is the decoded value up to the next `&` or `#`; later matches are ignored |
| RestaurantInfo.ParameterAt | public/js/restaurant_info.js:286-288 | after a match followed by `=` the answer is the decoded run after it |
| RestaurantInfo.PageNameHasNoParameter | public/js/restaurant_info.js:282 | no parameter can start inside `./restaurant.html` |
| RestaurantInfo.FirstMatchAt | public/js/restaurant_info.js:283 | the leftmost match is `p` when nothing before it matches |
| RestaurantInfo.ValueRunIs | public/js/restaurant_info.js:282 | the run stops exactly where the value stops |
| RestaurantInfo.RoundTripRestaurantId | public/js/restaurant_info.js:278-289 | reading `id` back from `urlForRestaurant(r)` gives the decimal text of `r.id` |
| RestaurantInfo.RoundTripFindsRestaurant | public/js/restaurant_info.js:278-289 | that text finds a restaurant with that id through `fetchRestaurantById` |
| RestaurantInfo.ParameterNameMustBeWhole | public/js/restaurant_info.js:282-285 | `?idx=5` and `?xid=5` have no `id` |
| RestaurantInfo.ParameterWithoutValue | public/js/restaurant_info.js:286-287 | `?id`, `?id&x` and `?id=` give `''` |
| RestaurantInfo.ParameterFirstOccurrence | public/js/restaurant_info.js:282-283 | in `?id=1&id=2` the first occurrence wins |
| RestaurantInfo.ParameterPlusIsSpace | public/js/restaurant_info.js:288 | `+` reads as a space and the value stops at `#` |
| RestaurantInfo.RestaurantPage.constructor | public/js/restaurant_info.js:4-7 | on page load, restaurant and reviews are undefined and the stores hold what earlier visits left |
| RestaurantInfo.RestaurantPage.GetCachedRestaurant | public/js/restaurant_info.js:13-24 | with no database or a restaurant already shown, nothing changes. Otherwise the record stored under `parseInt(id)` is shown, if there is one. The call rejects (`ok` false) exactly when it reaches `store.get` with `parseInt(id)` NaN, which is not a valid key |
| RestaurantInfo.RestaurantPage.FetchDataFromNetwork | public/js/restaurant_info.js:77-91 | a found restaurant replaces the shown one. Fetched reviews replace the shown ones only when strictly longer, so the shown list never shrinks. Reading the length of an undefined list throws |
| RestaurantInfo.RestaurantPage.HandleSubmit | public/js/restaurant_info.js:184-214 | the review carries the shown restaurant's id. It is added to the reviews store and appended to the shown list, and goes to the offline store only when the remote add throws. Missing database, restaurant or list raises at the line the source does |
| RestaurantInfo.RestaurantPage.ResetReviews | public/js/restaurant_info.js:219-226 | the shown list becomes the given one |
| RestaurantInfo.SubmitScenario | public/js/restaurant_info.js:193-212 | a submission grows the shown list by exactly one review of the shown restaurant, and the offline store by one only on remote failure |
| ObjectStore.PutAll | public/js/main.js:38 | after the puts, the keys are the old keys plus the keys of the listed records |
| ObjectStore.PutAllStep | public/js/main.js:38 | one more put in the loop is one more keyed replacement |
| ObjectStore.PutAllLastWins | public/js/main.js:38 | each key put ends up holding the last record put under it |
| ObjectStore.PutAllUntouched | public/js/main.js:36-38 | keys that no put names keep their old record |
| ObjectStore.PutAllAppend | public/js/main.js:38 | putting two lists in turn is putting their concatenation |
| ObjectStore.PutAllTwice | public/js/main.js:38 | putting the same list twice is putting it once |
| ObjectStore.PutAllKeepsKeyedById | public/js/dbhelper.js:21-23 | with key path `id`, every record stays under its own id |
| ObjectStore.SortedKeysLength | public/js/main.js:51 | `getAll` walks each key once |
| ObjectStore.SortedKeysComplete | public/js/main.js:51 | ... misses none ... |
| ObjectStore.SortedKeysIncreasing | public/js/main.js:51 | ... and goes in strictly ascending key order |
| ObjectStore.GetAll | public/js/main.js:51 | `getAll` returns one record per stored key |
| ObjectStore.GetAllMembers | public/js/main.js:51 | `getAll` returns exactly the stored records |
| ObjectStore.GetAllOrderedById | public/js/main.js:51 | on the `restaurants` store, `getAll` is in strictly ascending id order |
| MainPage.ReadAll | public/js/main.js:51 | reading the least remaining key, one key at a time, yields `getAll` |
| MainPage.Toggled | public/js/main.js:237 | the flag is negated and nothing else changes |
| MainPage.ToggledTwice | public/js/main.js:237 | toggling twice restores the record |
| MainPage.Page.constructor | public/js/main.js:7-11 | page load starts with an empty list and no markers |
| MainPage.Page.CacheRestaurants | public/js/main.js:32-40 | with no database or no list, nothing changes. Otherwise the store is `PutAll` of the list, so the last record of each id wins, other ids are untouched, and records stay under their ids |
| MainPage.Page.FetchReviews | public/js/main.js:146-155 | every fetched review is upserted only when both the fetched list and the database are present; otherwise the store is untouched |
| MainPage.Page.ToggleFavorite | public/js/main.js:236-244 | the shown record's flag is negated in place. With a database, the store then holds the new record under its id. Without one, the put throws after the flip |
| MainPage.Page.ResetRestaurants | public/js/main.js:161-171 | the shown list becomes the argument and the markers are gone |
| MainPage.Page.GetCachedRestaurants | public/js/main.js:45-57 | the guard fires exactly when there is no database or a list is present; otherwise the stored records are shown. On any page reachable from load the guard fires |
| MainPage.Page.GetCachedRestaurantsWhenEmpty | public/js/main.js:45-57 | with the guard skipping only a non-empty list: the page shows exactly the stored restaurants, in id order |
| MainPage.Page.UpdateRestaurants | public/js/main.js:127-144 | a failed query changes nothing. Otherwise the filtered list is shown, put into the store when there is a database, and the markers are cleared |
| MainPage.ToggleTwice | public/js/main.js:236-244 | toggling a shown restaurant twice restores the list, and the store holds it with its original flag |
| MainPage.CachedListNeverShown | public/js/main.js:45-57 | on a freshly loaded page with the database open, the cached list is never shown, whatever the store holds |
| MainPage.CachedListShownWhenEmpty | public/js/main.js:45-57 | with the intended guard, the same page shows one record per stored restaurant, exactly the stored ones |

## Left out

- DOM rendering, Google Maps, markers placed by `addMarkersToMap`, the breadcrumb, the review panel and the service-worker registration blocks: these are UI and foreign calls. `self.markers` is modelled only as the list `resetRestaurants` clears.
- `app.js` (static file server) and `gulpfile.js` (build tasks) are not part of this model.
- Real `fetch`, `response.json`, `idb.open` and Cache Storage are replaced by parameters: a network map, fetched lists as `Option`s, a `db` flag for a missing database, and in-memory maps.
- Promise interleaving, un-awaited calls and transaction completion order are not modelled. Each operation runs to completion as one step.
- Cache API details are not modelled: request matching is by URL string only, with no Vary headers, no opaque or partial responses, and no response cloning.
- `DBHelper.fetchReviewsByRestarauntId`, `DBHelper.addNewReview`, `DBHelper.fetchAllReviews`, `DBHelper.updateFavorite` and `Utils.toggleFavorite` are called but not defined in the files modelled; their results are parameters (`fetchedReviews`, `remoteThrows`, `fetched`), and the remote favorite update is left out.
- `getCachedReviews` (public/js/restaurant_info.js:29-44) is not modelled. It reads the reviews store through its `by-restaurant` index with `index.getAll(parseInt(id))`. The schema of that store and index is not created by `openDatabase`, so the model keeps the reviews store only as a log of added records.
- `initMap` (public/js/restaurant_info.js:49 on) is not modelled. It reads the id, runs `getCachedReviews` (not modelled) and `getCachedRestaurant` together, then calls `fetchDataFromNetwork`, awaiting it only when the cache missed, and renders the map.
- `fetchNeighborhoods`/`fetchCuisines` in main.js are not modelled. They assign `self.neighborhoods` (main.js:78) and `self.cuisines` (main.js:89) from the modelled `DBHelper` queries when those are truthy, and render. The `Page` class has no fields for those two lists.
- Offline write-queue replay is left out: nothing in the code reads `offlineStore` back.
- The `reviews` and `offlineStore` stores are not created by `openDatabase`, so their schema is unknown. `RestaurantPage` keeps them as logs of added records. `MainPage.Page` keys the reviews store on the review's optional id.
- RestaurantInfo.DecodeUriComponent: only escapes of single-byte (ASCII) characters are decoded. A multi-byte UTF-8 escape is treated as malformed, which is stricter than `decodeURIComponent`.
- RestaurantInfo.GetParameterByName: the bracket escaping of the name is not modelled. Names are matched literally, which agrees with the regular expression only for names without regex metacharacters.
- RestaurantInfo.RestaurantPage.FetchDataFromNetwork: `!==` is object identity in the source. The model compares values, which leaves the same state.
- JsValues.ParseInt: a negative zero is read as 0, which IndexedDB treats as the same key. Digits beyond double precision keep their exact value.
- JsValues.StringToNumber: only the empty string and an optional sign followed by decimal digits are read. Links built by `urlForRestaurant` carry decimal ids, but the id reaches `==` straight from the page URL, so an id written there with white space, in hexadecimal, as a fraction or with an exponent is NaN in the model where JavaScript would convert it.
- Numbers are unbounded integers. Restaurant ids, timestamps and ratings are not IEEE doubles, and `is_favorite` is a boolean, although the server may send the strings `"true"`/`"false"`.
- `Date.now()` is a parameter of `HandleSubmit`, and `toLocaleString` is left out.
- ServiceWorker.AnyCacheReply: checkAllCaches passes the request to `caches.match` and `fetch`; the model looks both up by the request URL.

## Findings

| source | as written | input that shows it | evidently intended | confidence | as-written member | corrected member |
|---|---|---|---|---|---|---|
| public/js/main.js:48 | `getCachedRestaurants` returns early whenever `self.restaurants` is truthy. It is set to the empty array at line 7 and only ever reassigned to arrays, and an empty array is truthy, so the guard always fires | a freshly loaded list page with the database open and a non-empty `restaurants` store: nothing is shown from the store | skip only when a non-empty list is already displayed, so that cached restaurants show before the network answers | high; not executed | MainPage.CachedListNeverShown | MainPage.Page.GetCachedRestaurantsWhenEmpty |
