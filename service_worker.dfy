/**
 * Model of the service worker (service-worker.js): request routing, the image
 * storage key, cache-first serving, the any-cache fallback, install-time
 * pre-caching and activation-time garbage collection of old caches.
 *
 * The browser's Cache Storage is the class `CacheStorage`: cache names in
 * creation order (the order `caches.keys()` lists them and `caches.match`
 * searches them) and, per name, a map from URL to the stored response. The
 * network is a map from request URL to response; a URL it does not hold is a
 * fetch that fails.
 */
module ServiceWorker {
  import opened Wrappers
  import opened JsValues

  const StaticCacheName := "restaurant-static-v1"
  const MapsCacheName := "restaurant-maps-v1"
  const ImageCacheName := "restaurant-images-v1"
  /** The cache names of the current version. */
  const AllCaches := [StaticCacheName, ImageCacheName, MapsCacheName]
  /** Every cache the app has ever created carries this prefix. */
  const AppCachePrefix := "restaurant-"
  const MapsPrefix := "https://maps.googleapis.com/maps"
  const ImagePathPrefix := "/img/"
  const SizeSuffix := "px.jpg"
  /** The paths pre-cached at install time, relative to the worker's origin. */
  const Manifest := [
    "/",
    "/js/main.js",
    "/js/dbhelper.js",
    "/js/restaurant_info.js",
    "/css/styles.css",
    "/css/restaurant.css",
    "/data/restaurants.json"
  ]

  /**
   * A resolved response: its body and whether its status is in the range 200-299
   * (`Response.ok`). A 404 page is a resolved response with `ok` false.
   */
  datatype Response = Response(body: string, ok: bool)

  type Cache = map<string, Response>

  /** A value of the whole Cache Storage: names in creation order and their contents. */
  datatype Storage = Storage(names: seq<string>, entries: map<string, Cache>)

  predicate DistinctNames(names: seq<string>) {
    forall i, j :: 0 <= i < j < |names| ==> names[i] != names[j]
  }

  /** Every name is listed once, and exactly the listed names have contents. */
  ghost predicate WellFormed(s: Storage) {
    && DistinctNames(s.names)
    && forall n :: n in s.entries <==> n in s.names
  }

  /** The network: a request URL it holds is fetched; any other fetch rejects. */
  type Network = map<string, Response>

  // ---------------------------------------------------------------------------
  // Request routing

  /** The parts of `new URL(request.url)` the fetch listener reads. */
  datatype Request = Request(url: string, origin: string, pathname: string)

  /** How the fetch listener answers: cache-first in one named cache under a key, or any cache. */
  datatype Route = CacheFirst(cacheName: string, key: string) | AnyCache

  /** The number of decimal digits that end `s`. */
  function TrailingDigitCount(s: string): (k: nat)
    ensures k <= |s| && forall i :: |s| - k <= i < |s| ==> IsDigit(s[i])
    ensures k < |s| ==> !IsDigit(s[|s| - k - 1])
  {
    if s == [] || !IsDigit(s[|s| - 1]) then 0
    else 1 + TrailingDigitCount(s[..|s| - 1])
  }

  /**
   * `url.replace(/-\d+px\.jpg$/, '')`: a trailing `-<digits>px.jpg` is removed, so
   * every size variant of an image shares one storage key. Because the match must
   * end the string and `-` is not a digit, there is at most one place it can start.
   */
  function ImageStorageKey(url: string): (key: string)
    ensures |key| <= |url| && url[..|key|] == key
  {
    if EndsWith(url, SizeSuffix) then
      var stem := url[..|url| - |SizeSuffix|];
      var k := TrailingDigitCount(stem);
      if 0 < k < |stem| && stem[|stem| - k - 1] == '-' then stem[..|stem| - k - 1] else url
    else url
  }

  /** Digits appended after a non-digit are exactly the trailing digits. */
  lemma {:induction false} TrailingDigitsOfAppended(a: string, d: string)
    requires a != [] && !IsDigit(a[|a| - 1]) && AllDigits(d)
    ensures TrailingDigitCount(a + d) == |d|
  {
    if d != [] {
      var ad := a + d;
      assert ad[..|ad| - 1] == a + d[..|d| - 1];
      TrailingDigitsOfAppended(a, d[..|d| - 1]);
    } else {
      assert a + d == a;
    }
  }

  /** A size-variant URL `stem-<digits>px.jpg` is stored under `stem`. */
  lemma {:induction false} ImageKeyStripsSizeSuffix(stem: string, digits: string)
    requires |digits| > 0 && AllDigits(digits)
    ensures ImageStorageKey(stem + "-" + digits + SizeSuffix) == stem
  {
    var url := stem + "-" + digits + SizeSuffix;
    var body := stem + "-" + digits;
    assert url[..|url| - |SizeSuffix|] == body;
    assert url[|url| - |SizeSuffix|..] == SizeSuffix;
    TrailingDigitsOfAppended(stem + "-", digits);
    assert body[..|body| - |digits| - 1] == stem;
  }

  /** Conversely, a URL whose key differs from it is exactly such a size variant of its key. */
  lemma {:induction false} ImageKeyChangesOnlySizeVariants(url: string)
    requires ImageStorageKey(url) != url
    ensures exists digits :: |digits| > 0 && AllDigits(digits)
                          && url == ImageStorageKey(url) + "-" + digits + SizeSuffix
  {
    assert EndsWith(url, SizeSuffix);
    var stem := url[..|url| - |SizeSuffix|];
    var k := TrailingDigitCount(stem);
    assert 0 < k < |stem| && stem[|stem| - k - 1] == '-';
    var key := stem[..|stem| - k - 1];
    assert ImageStorageKey(url) == key;
    var digits := stem[|stem| - k..];
    assert AllDigits(digits) by {
      forall j | 0 <= j < |digits| ensures IsDigit(digits[j]) {
        assert digits[j] == stem[|stem| - k + j];
      }
    }
    SplitAround(stem, |stem| - k - 1);
    assert [stem[|stem| - k - 1]] == "-";
    SplitAround(url, |url| - |SizeSuffix|);
    assert url[|url| - |SizeSuffix|..] == SizeSuffix;
  }

  /** A string is its part before `i`, followed by its part from `i` on. */
  lemma SplitAround(s: string, i: nat)
    requires i < |s|
    ensures s == s[..i] + [s[i]] + s[i + 1..]
    ensures s == s[..i] + s[i..]
  {
  }

  /** The 800-pixel variant of an image is cached under the image's stem. */
  lemma {:induction false} ImageKeyVariantExample()
    ensures ImageStorageKey("/img/1-800px.jpg") == "/img/1"
  {
    ImageKeyStripsSizeSuffix("/img/1", "800");
    assert "/img/1" + "-" + "800" + SizeSuffix == "/img/1-800px.jpg";
  }

  /** Image URLs that are not `-<digits>px.jpg` variants are their own key. */
  lemma {:induction false} ImageKeyKeptExamples()
    ensures ImageStorageKey("/img/1.webp") == "/img/1.webp"
    ensures ImageStorageKey("/img/1.jpg") == "/img/1.jpg"
    ensures ImageStorageKey("/img/1px.jpg") == "/img/1px.jpg"
  {
    var u := "/img/1px.jpg";
    assert u[..|u| - |SizeSuffix|] == "/img/1";
    assert TrailingDigitCount("/img/1") == 1 by {
      assert "/img/1"[..5] == "/img/";
    }
  }

  /** The fetch listener's classification, checked in this order. */
  function Classify(req: Request, selfOrigin: string): (route: Route)
    ensures route.CacheFirst? ==> route.cacheName in AllCaches[1..]
  {
    if req.origin == selfOrigin && StartsWith(req.pathname, ImagePathPrefix) then
      CacheFirst(ImageCacheName, ImageStorageKey(req.url))
    else if StartsWith(req.url, MapsPrefix) then
      CacheFirst(MapsCacheName, req.url)
    else AnyCache
  }

  /**
   * The partitions do not mix: only same-origin `/img/` requests reach the image
   * cache, under their image key; only map requests not already taken as images
   * reach the maps cache, under their literal URL; nothing reaches the static cache
   * through cache-first serving; everything else goes to the any-cache lookup.
   */
  lemma {:induction false} ClassifyPartitions(req: Request, selfOrigin: string)
    ensures var route := Classify(req, selfOrigin);
      var isImage := req.origin == selfOrigin && StartsWith(req.pathname, ImagePathPrefix);
      && (route.CacheFirst? && route.cacheName == ImageCacheName <==> isImage)
      && (route.CacheFirst? && route.cacheName == MapsCacheName <==> !isImage && StartsWith(req.url, MapsPrefix))
      && (route.AnyCache? <==> !isImage && !StartsWith(req.url, MapsPrefix))
      && (route.CacheFirst? ==> route.cacheName != StaticCacheName)
      && (route.CacheFirst? && route.cacheName == ImageCacheName ==> route.key == ImageStorageKey(req.url))
      && (route.CacheFirst? && route.cacheName == MapsCacheName ==> route.key == req.url)
  {
  }

  lemma {:induction false} PrefixKept(s: string, t: string, prefix: string)
    requires StartsWith(s, prefix)
    ensures StartsWith(s + t, prefix)
  {
    assert (s + t)[..|prefix|] == s[..|prefix|];
  }

  /** Size variants of one same-origin image are routed to one entry of the image cache. */
  lemma {:induction false} SizeVariantsShareEntry(origin: string, path: string, digits: string)
    requires |digits| > 0 && AllDigits(digits)
    requires StartsWith(path, ImagePathPrefix)
    ensures var variant := path + "-" + digits + SizeSuffix;
      Classify(Request(origin + variant, origin, variant), origin) == CacheFirst(ImageCacheName, origin + path)
  {
    var variant := path + "-" + digits + SizeSuffix;
    Associative(path, "-", digits);
    Associative(path, "-" + digits, SizeSuffix);
    Associative("-", digits, SizeSuffix);
    PrefixKept(path, "-" + digits + SizeSuffix, ImagePathPrefix);
    ImageKeyStripsSizeSuffix(origin + path, digits);
    Associative(origin, path + "-" + digits, SizeSuffix);
    Associative(origin, path + "-", digits);
    Associative(origin, path, "-");
  }

  lemma Associative(a: string, b: string, c: string)
    ensures a + (b + c) == (a + b) + c
  {
  }

  // ---------------------------------------------------------------------------
  // Cache Storage as values

  /** `caches.open(name)`: the named cache, created empty at the end of the list if missing. */
  function Opened(s: Storage, name: string): (t: Storage)
    ensures WellFormed(s) ==> WellFormed(t)
    ensures name in t.entries
    ensures forall n :: n in s.entries ==> n in t.entries && t.entries[n] == s.entries[n]
  {
    if name in s.entries then s else Storage(s.names + [name], s.entries[name := map[]])
  }

  /** `cache.put(url, response)` on the named cache. */
  function Stored(s: Storage, name: string, url: string, r: Response): (t: Storage)
    requires name in s.entries
    ensures WellFormed(s) ==> WellFormed(t)
  {
    Storage(s.names, s.entries[name := s.entries[name][url := r]])
  }

  /** The names in `names` that are not in `dropped`, in order. */
  function FilterOut(names: seq<string>, dropped: seq<string>): (out: seq<string>)
    ensures forall n :: n in out <==> n in names && n !in dropped
    ensures DistinctNames(names) ==> DistinctNames(out)
  {
    if names == [] then []
    else
      var rest := FilterOut(names[1..], dropped);
      assert forall n :: n in names[1..] ==> n in names;
      if names[0] in dropped then rest
      else
        assert DistinctNames(names) ==> names[0] !in names[1..];
        [names[0]] + rest
  }

  lemma {:induction false} FilterOutOneMore(names: seq<string>, dropped: seq<string>, n: string)
    ensures FilterOut(FilterOut(names, dropped), [n]) == FilterOut(names, dropped + [n])
  {
    if names != [] {
      FilterOutOneMore(names[1..], dropped, n);
    }
  }

  lemma {:induction false} FilterOutNothing(names: seq<string>)
    ensures FilterOut(names, []) == names
  {
    if names != [] {
      FilterOutNothing(names[1..]);
    }
  }

  /** `caches.delete(name)` */
  function Deleted(s: Storage, name: string): (t: Storage)
    ensures WellFormed(s) ==> WellFormed(t)
  {
    Storage(FilterOut(s.names, [name]), s.entries - {name})
  }

  /** A cache of an earlier version: an app cache whose name the current version does not declare. */
  predicate IsStale(name: string) {
    StartsWith(name, AppCachePrefix) && name !in AllCaches
  }

  /** `cacheNames.filter(cacheName => cacheName.startsWith('restaurant-') && !allCaches.includes(cacheName))` */
  function StaleNames(names: seq<string>): (out: seq<string>)
    ensures forall n :: n in out <==> n in names && IsStale(n)
  {
    if names == [] then []
    else
      assert forall n :: n in names <==> n == names[0] || n in names[1..];
      (if IsStale(names[0]) then [names[0]] else []) + StaleNames(names[1..])
  }

  /**
   * The storage after `caches.delete` of each of `dropped`, in turn: no cache it
   * names survives, and every surviving cache keeps its contents.
   */
  function Pruned(s: Storage, dropped: seq<string>): (t: Storage)
    ensures forall n :: n in t.entries ==> n in s.entries && n !in dropped && t.entries[n] == s.entries[n]
    decreases |dropped|
  {
    if dropped == [] then s
    else
      var front := dropped[..|dropped| - 1];
      assert forall n :: n in dropped <==> n in front || n == dropped[|dropped| - 1];
      Deleted(Pruned(s, front), dropped[|dropped| - 1])
  }

  /** Deleting in turn keeps the other names, in their order. */
  lemma {:induction false} PrunedNames(s: Storage, dropped: seq<string>)
    ensures Pruned(s, dropped).names == FilterOut(s.names, dropped)
    decreases |dropped|
  {
    if dropped == [] {
      FilterOutNothing(s.names);
    } else {
      var front := dropped[..|dropped| - 1];
      var last := dropped[|dropped| - 1];
      PrunedNames(s, front);
      calc {
        Pruned(s, dropped).names;
        Deleted(Pruned(s, front), last).names;
        FilterOut(FilterOut(s.names, front), [last]);
        { FilterOutOneMore(s.names, front, last); }
        FilterOut(s.names, front + [last]);
        { assert front + [last] == dropped; }
        FilterOut(s.names, dropped);
      }
    }
  }

  /** Deleting in turn drops exactly the named caches and keeps the others' contents. */
  lemma {:induction false} PrunedEntries(s: Storage, dropped: seq<string>)
    ensures Pruned(s, dropped).entries == map n | n in s.entries && n !in dropped :: s.entries[n]
    decreases |dropped|
  {
    if dropped == [] {
      assert (map n | n in s.entries && n !in dropped :: s.entries[n]) == s.entries;
    } else {
      var front := dropped[..|dropped| - 1];
      PrunedEntries(s, front);
      assert forall n :: n in dropped <==> n in front || n == dropped[|dropped| - 1];
    }
  }

  /** Deleting in turn keeps the storage well formed. */
  lemma {:induction false} PrunedWellFormed(s: Storage, dropped: seq<string>)
    requires WellFormed(s)
    ensures WellFormed(Pruned(s, dropped))
    decreases |dropped|
  {
    if dropped != [] {
      PrunedWellFormed(s, dropped[..|dropped| - 1]);
    }
  }

  /** Pruning one more name is one more `caches.delete`. */
  lemma PrunedOneMore(s: Storage, dropped: seq<string>, i: nat)
    requires i < |dropped|
    ensures Pruned(s, dropped[..i + 1]) == Deleted(Pruned(s, dropped[..i]), dropped[i])
  {
    assert dropped[..i + 1][..i] == dropped[..i];
  }

  /** Both views of pruning together. */
  lemma PrunedSpec(s: Storage, dropped: seq<string>)
    ensures Pruned(s, dropped)
         == Storage(FilterOut(s.names, dropped), map n | n in s.entries && n !in dropped :: s.entries[n])
    ensures WellFormed(s) ==> WellFormed(Pruned(s, dropped))
  {
    PrunedNames(s, dropped);
    PrunedEntries(s, dropped);
    if WellFormed(s) {
      PrunedWellFormed(s, dropped);
    }
  }

  /** The storage after activation: every stale cache deleted, so no stale name is left. */
  function Activated(s: Storage): (t: Storage)
    ensures forall n :: n in t.names ==> !IsStale(n)
    ensures WellFormed(s) ==> forall n :: n in t.entries ==> !IsStale(n)
  {
    PrunedNames(s, StaleNames(s.names));
    Pruned(s, StaleNames(s.names))
  }

  /**
   * Activation deletes exactly the stale caches: caches without the app prefix and
   * the current version's caches survive with their contents, in their order.
   */
  lemma {:induction false} ActivateDeletesExactlyStale(s: Storage)
    requires WellFormed(s)
    ensures WellFormed(Activated(s))
    ensures forall n :: n in Activated(s).entries <==> n in s.entries && !IsStale(n)
    ensures forall n :: n in Activated(s).entries ==> Activated(s).entries[n] == s.entries[n]
    ensures forall n :: n in AllCaches && n in s.entries ==> n in Activated(s).entries
    ensures forall n :: !StartsWith(n, AppCachePrefix) && n in s.entries ==> n in Activated(s).entries
  {
    PrunedSpec(s, StaleNames(s.names));
  }

  lemma {:induction false} NoStaleLeft(names: seq<string>)
    requires forall i :: 0 <= i < |names| ==> !IsStale(names[i])
    ensures StaleNames(names) == []
  {
    if names != [] {
      NoStaleLeft(names[1..]);
    }
  }

  /** Activating a second time deletes nothing more. */
  lemma {:induction false} ActivateIdempotent(s: Storage)
    requires WellFormed(s)
    ensures Activated(Activated(s)) == Activated(s)
  {
    var t := Activated(s);
    PrunedSpec(s, StaleNames(s.names));
    NoStaleLeft(t.names);
  }

  /** `caches.match(url)`: the entry for `url` in the first cache, in creation order, that holds one. */
  function FirstMatch(names: seq<string>, entries: map<string, Cache>, url: string): (r: Option<Response>)
    ensures r.None? <==> forall i :: 0 <= i < |names| ==> names[i] !in entries || url !in entries[names[i]]
    ensures r.Some? ==> exists i :: 0 <= i < |names| && names[i] in entries && url in entries[names[i]]
                                    && entries[names[i]][url] == r.value
  {
    if names == [] then None
    else if names[0] in entries && url in entries[names[0]] then Some(entries[names[0]][url])
    else
      var r := FirstMatch(names[1..], entries, url);
      assert forall i :: 1 <= i < |names| ==> names[i] == names[1..][i - 1];
      r
  }

  /** Searching from position `i` looks at cache `names[i]` first, then at the rest. */
  lemma FirstMatchStep(names: seq<string>, entries: map<string, Cache>, url: string, i: nat)
    requires i < |names|
    ensures FirstMatch(names[i..], entries, url)
         == if names[i] in entries && url in entries[names[i]] then Some(entries[names[i]][url])
            else FirstMatch(names[i + 1..], entries, url)
  {
    assert names[i..][0] == names[i] && names[i..][1..] == names[i + 1..];
  }

  /** The result of the fetch listener: a response, `undefined`, or a rejected promise. */
  datatype Reply = Respond(response: Response) | Undefined | Rejected

  /** What `serveFromCache` leaves behind: the new storage and the answer (`None` is `undefined`). */
  datatype ServeOutcome = ServeOutcome(storage: Storage, answer: Option<Response>)

  /** `serveFromCache(request, key, cacheName)` on a storage value. */
  function Served(s: Storage, requestUrl: string, key: string, cacheName: string, network: Network): (out: ServeOutcome)
    ensures WellFormed(s) ==> WellFormed(out.storage)
    ensures cacheName in out.storage.entries
    ensures out.answer.Some? ==>
              key in out.storage.entries[cacheName] && out.storage.entries[cacheName][key] == out.answer.value
    ensures out.answer.None? ==> requestUrl !in network
  {
    var withCache := Opened(s, cacheName);
    if key in withCache.entries[cacheName] then ServeOutcome(withCache, Some(withCache.entries[cacheName][key]))
    else if requestUrl in network then
      ServeOutcome(Stored(withCache, cacheName, key, network[requestUrl]), Some(network[requestUrl]))
    else ServeOutcome(withCache, None)
  }

  /** A hit returns the stored response and changes no cache, whatever the network would say. */
  lemma {:induction false} ServeHit(s: Storage, requestUrl: string, key: string, cacheName: string, network: Network)
    requires cacheName in s.entries && key in s.entries[cacheName]
    ensures Served(s, requestUrl, key, cacheName, network) == ServeOutcome(s, Some(s.entries[cacheName][key]))
  {
  }

  /**
   * A miss with a working network stores the network's response under the key, in
   * the named cache only, and returns it; a miss with a failing network returns
   * `undefined` and leaves every existing cache as it was.
   */
  lemma {:induction false} ServeMiss(s: Storage, requestUrl: string, key: string, cacheName: string, network: Network)
    requires WellFormed(s)
    requires cacheName !in s.entries || key !in s.entries[cacheName]
    ensures var ServeOutcome(t, r) := Served(s, requestUrl, key, cacheName, network);
      && WellFormed(t)
      && (forall n :: n in s.entries && n != cacheName ==> n in t.entries && t.entries[n] == s.entries[n])
      && (forall n :: n in t.entries && n != cacheName ==> n in s.entries)
      && (requestUrl in network ==>
            && r == Some(network[requestUrl])
            && t.entries[cacheName] == Opened(s, cacheName).entries[cacheName][key := network[requestUrl]])
      && (requestUrl !in network ==> r.None? && t == Opened(s, cacheName))
      && (cacheName in s.entries ==> t.names == s.names)
  {
  }

  /** After any call, a second request with the same key is a hit that leaves the storage alone. */
  lemma {:induction false} ServeThenHit(s: Storage, urlA: string, urlB: string, key: string, cacheName: string, netA: Network, netB: Network)
    requires WellFormed(s)
    requires Served(s, urlA, key, cacheName, netA).answer.Some?
    ensures var first := Served(s, urlA, key, cacheName, netA);
      Served(first.storage, urlB, key, cacheName, netB) == first
  {
  }

  /** `checkAllCaches(event)`: a match in any cache, else the network's answer; nothing is stored. */
  function AnyCacheReply(s: Storage, url: string, network: Network): (reply: Reply)
    ensures reply != Undefined
  {
    match FirstMatch(s.names, s.entries, url)
    case Some(r) => Respond(r)
    case None => if url in network then Respond(network[url]) else Rejected
  }

  /** The network is consulted only when no cache holds the URL, and its failure is the caller's. */
  lemma {:induction false} AnyCacheSpec(s: Storage, url: string, network: Network)
    requires WellFormed(s)
    ensures var reply := AnyCacheReply(s, url, network);
      && (reply.Rejected? <==> (forall n :: n in s.entries ==> url !in s.entries[n]) && url !in network)
      && ((exists n :: n in s.entries && url in s.entries[n]) ==>
            exists n :: n in s.entries && url in s.entries[n] && reply == Respond(s.entries[n][url]))
  {
    if exists n :: n in s.entries && url in s.entries[n] {
      var n :| n in s.entries && url in s.entries[n];
      var i :| 0 <= i < |s.names| && s.names[i] == n;
    }
  }

  /**
   * The manifest as `cache.addAll` requests it: each path resolved against the
   * worker's location, whose origin is `origin` (`"/"` becomes `origin + "/"`).
   */
  function ManifestUrls(origin: string): (urls: seq<string>)
    ensures |urls| == |Manifest|
    ensures forall i :: 0 <= i < |Manifest| ==> urls[i] == origin + Manifest[i]
  {
    seq(|Manifest|, i requires 0 <= i < |Manifest| => origin + Manifest[i])
  }

  /** Every manifest URL is fetched with a status in the range 200-299. */
  predicate ManifestReachable(origin: string, network: Network) {
    forall i :: 0 <= i < |Manifest| ==> origin + Manifest[i] in network && network[origin + Manifest[i]].ok
  }

  /**
   * `cache.put(urls[k], responses[k])` for every k in turn: the cache then holds
   * exactly its old URLs and `urls`, and the last URL holds the last response.
   */
  function PutInOrder(cache: Cache, urls: seq<string>, responses: seq<Response>): (out: Cache)
    requires |responses| == |urls|
    ensures forall u :: u in out <==> u in cache || u in urls
    ensures urls != [] ==> out[urls[|urls| - 1]] == responses[|urls| - 1]
  {
    if urls == [] then cache
    else
      var n := |urls| - 1;
      assert forall u :: u in urls <==> u in urls[..n] || u == urls[n];
      PutInOrder(cache, urls[..n], responses[..n])[urls[n] := responses[n]]
  }

  /**
   * Storing the network's responses for `urls` adds exactly those URLs, each with
   * the network's response, and keeps every other entry of the cache.
   */
  lemma {:induction false} PutInOrderFromNetwork(cache: Cache, urls: seq<string>, responses: seq<Response>, network: Network)
    requires |responses| == |urls|
    requires forall i :: 0 <= i < |urls| ==> urls[i] in network && responses[i] == network[urls[i]]
    ensures var out := PutInOrder(cache, urls, responses);
      && (forall u :: u in out <==> u in cache || u in urls)
      && (forall u :: u in urls ==> out[u] == network[u])
      && (forall u :: u in cache && u !in urls ==> out[u] == cache[u])
  {
    if urls != [] {
      var n := |urls| - 1;
      PutInOrderFromNetwork(cache, urls[..n], responses[..n], network);
      var out := PutInOrder(cache, urls, responses);
      forall u | u in urls ensures out[u] == network[u] {
        if u != urls[n] {
          assert u in urls[..n];
        }
      }
      forall u | u in cache && u !in urls ensures out[u] == cache[u] {
        assert u !in urls[..n];
      }
    }
  }

  /** The responses `cache.addAll(urls)` fetches when every fetch succeeds. */
  function FetchedResponses(urls: seq<string>, network: Network): (rs: seq<Response>)
    requires forall i :: 0 <= i < |urls| ==> urls[i] in network
    ensures |rs| == |urls| && forall i :: 0 <= i < |urls| ==> rs[i] == network[urls[i]]
  {
    seq(|urls|, i requires 0 <= i < |urls| => network[urls[i]])
  }

  /**
   * `onInstalling`: open the static cache, then `cache.addAll(Manifest)`, which
   * requests each manifest path resolved against the worker's origin and stores
   * every response under that URL or, when any fetch fails, nothing. Either way the
   * static cache exists afterwards.
   */
  function Installed(s: Storage, origin: string, network: Network): (out: InstallOutcome)
    ensures WellFormed(s) ==> WellFormed(out.storage)
    ensures StaticCacheName in out.storage.entries
  {
    var withCache := Opened(s, StaticCacheName);
    var urls := ManifestUrls(origin);
    if ManifestReachable(origin, network) then
      var cache := PutInOrder(withCache.entries[StaticCacheName], urls, FetchedResponses(urls, network));
      InstallOutcome(Storage(withCache.names, withCache.entries[StaticCacheName := cache]), true)
    else InstallOutcome(withCache, false)
  }

  /** The storage after install, and whether install succeeded. */
  datatype InstallOutcome = InstallOutcome(storage: Storage, ok: bool)

  /**
   * Install succeeds exactly when every manifest URL can be fetched; then each is in
   * the static cache, under its absolute URL, with the network's response. Either
   * way no other cache changes, and a failed install stores nothing.
   */
  lemma {:induction false} InstallAllOrNothing(s: Storage, origin: string, network: Network)
    requires WellFormed(s)
    ensures var InstallOutcome(t, ok) := Installed(s, origin, network);
      && WellFormed(t)
      && (ok <==> ManifestReachable(origin, network))
      && (ok ==> forall i :: 0 <= i < |Manifest| ==>
            && origin + Manifest[i] in t.entries[StaticCacheName]
            && t.entries[StaticCacheName][origin + Manifest[i]] == network[origin + Manifest[i]])
      && (forall n :: n in s.entries && n != StaticCacheName ==> n in t.entries && t.entries[n] == s.entries[n])
      && (!ok ==> t == Opened(s, StaticCacheName))
  {
    var InstallOutcome(t, ok) := Installed(s, origin, network);
    if ok {
      var urls := ManifestUrls(origin);
      var base := Opened(s, StaticCacheName).entries[StaticCacheName];
      PutInOrderFromNetwork(base, urls, FetchedResponses(urls, network), network);
      forall i | 0 <= i < |Manifest|
        ensures origin + Manifest[i] in t.entries[StaticCacheName]
        ensures t.entries[StaticCacheName][origin + Manifest[i]] == network[origin + Manifest[i]]
      {
        assert urls[i] in urls;
      }
    }
  }

  /**
   * After a successful install every page of the app shell is answered from a cache,
   * whatever the network holds later: the app works offline.
   */
  lemma {:induction false} InstalledShellServedOffline(s: Storage, origin: string, network: Network, later: Network)
    requires WellFormed(s) && Installed(s, origin, network).ok
    ensures var t := Installed(s, origin, network).storage;
      forall i :: 0 <= i < |Manifest| ==>
        var url := origin + Manifest[i];
        exists n :: n in t.entries && url in t.entries[n] && AnyCacheReply(t, url, later) == Respond(t.entries[n][url])
  {
    var t := Installed(s, origin, network).storage;
    InstallAllOrNothing(s, origin, network);
    forall i | 0 <= i < |Manifest|
      ensures var url := origin + Manifest[i];
        exists n :: n in t.entries && url in t.entries[n] && AnyCacheReply(t, url, later) == Respond(t.entries[n][url])
    {
      var url := origin + Manifest[i];
      assert StaticCacheName in t.entries && url in t.entries[StaticCacheName];
      AnyCacheSpec(t, url, later);
    }
  }

  /**
   * The fetching half of `cache.addAll(urls)`: every URL is fetched before anything
   * is stored, and one failed fetch or one response whose status is outside
   * 200-299 fails the whole call.
   */
  method FetchAll(urls: seq<string>, network: Network) returns (responses: Option<seq<Response>>)
    ensures responses.Some? <==> forall i :: 0 <= i < |urls| ==> urls[i] in network && network[urls[i]].ok
    ensures responses.Some? ==>
              && |responses.value| == |urls|
              && forall i :: 0 <= i < |urls| ==> responses.value[i] == network[urls[i]]
  {
    var fetched: seq<Response> := [];
    var i := 0;
    while i < |urls|
      invariant 0 <= i <= |urls| && |fetched| == i
      invariant forall j :: 0 <= j < i ==> urls[j] in network && network[urls[j]].ok && fetched[j] == network[urls[j]]
    {
      if urls[i] !in network || !network[urls[i]].ok {
        return None;
      }
      fetched := fetched + [network[urls[i]]];
      i := i + 1;
    }
    return Some(fetched);
  }

  // ---------------------------------------------------------------------------
  // The Cache Storage object the worker drives

  class CacheStorage {
    var names: seq<string>
    var entries: map<string, Cache>

    function State(): Storage
      reads this
    {
      Storage(names, entries)
    }

    ghost predicate Valid()
      reads this
    {
      WellFormed(State())
    }

    constructor (s: Storage)
      requires WellFormed(s)
      ensures Valid() && State() == s
    {
      names := s.names;
      entries := s.entries;
    }

    /** `caches.open(name)` */
    method Open(name: string)
      requires Valid()
      modifies this
      ensures Valid() && State() == Opened(old(State()), name)
    {
      if name !in entries {
        names := names + [name];
        entries := entries[name := map[]];
      }
    }

    /** `cache.match(url)` on an open cache */
    method Match(name: string, url: string) returns (r: Option<Response>)
      requires name in entries
      ensures r.Some? <==> url in entries[name]
      ensures r.Some? ==> r.value == entries[name][url]
    {
      r := if url in entries[name] then Some(entries[name][url]) else None;
    }

    /** `cache.put(url, response)` on an open cache */
    method Put(name: string, url: string, response: Response)
      requires Valid() && name in entries
      modifies this
      ensures Valid() && State() == Stored(old(State()), name, url, response)
    {
      entries := entries[name := entries[name][url := response]];
    }

    /** `caches.delete(name)` */
    method Delete(name: string)
      requires Valid()
      modifies this
      ensures Valid() && State() == Deleted(old(State()), name)
    {
      names := FilterOut(names, [name]);
      entries := entries - {name};
    }

    /** `caches.match(url)`: the caches are searched one by one in creation order. */
    method MatchAny(url: string) returns (r: Option<Response>)
      ensures r == FirstMatch(names, entries, url)
    {
      var i := 0;
      while i < |names|
        invariant 0 <= i <= |names|
        invariant FirstMatch(names, entries, url) == FirstMatch(names[i..], entries, url)
      {
        FirstMatchStep(names, entries, url, i);
        if names[i] in entries && url in entries[names[i]] {
          return Some(entries[names[i]][url]);
        }
        i := i + 1;
      }
      return None;
    }

    /** `serveFromCache(request, key, cacheName)` */
    method ServeFromCache(requestUrl: string, key: string, cacheName: string, network: Network)
      returns (r: Option<Response>)
      requires Valid()
      modifies this
      ensures Valid()
      ensures ServeOutcome(State(), r) == Served(old(State()), requestUrl, key, cacheName, network)
    {
      Open(cacheName);
      var hit := Match(cacheName, key);
      if hit.Some? {
        return hit;
      }
      if requestUrl in network {
        var fetched := network[requestUrl];
        Put(cacheName, key, fetched);
        return Some(fetched);
      }
      return None;
    }

    /** `checkAllCaches(event)`: reads the caches, never writes them. */
    method CheckAllCaches(url: string, network: Network) returns (reply: Reply)
      requires Valid()
      ensures reply == AnyCacheReply(State(), url, network)
      ensures reply.Rejected? ==> forall n :: n in entries ==> url !in entries[n]
    {
      var cached := MatchAny(url);
      if cached.Some? {
        return Respond(cached.value);
      }
      if url in network {
        return Respond(network[url]);
      }
      AnyCacheSpec(State(), url, network);
      return Rejected;
    }

    /** The `fetch` listener: route the request and answer it. */
    method HandleFetch(req: Request, selfOrigin: string, network: Network) returns (reply: Reply)
      requires Valid()
      modifies this
      ensures Valid()
      ensures match Classify(req, selfOrigin)
        case CacheFirst(name, key) =>
          var ServeOutcome(t, r) := Served(old(State()), req.url, key, name, network);
          State() == t && reply == (if r.Some? then Respond(r.value) else Undefined)
        case AnyCache =>
          State() == old(State()) && reply == AnyCacheReply(old(State()), req.url, network)
    {
      match Classify(req, selfOrigin)
      case CacheFirst(name, key) =>
        var r := ServeFromCache(req.url, key, name, network);
        reply := if r.Some? then Respond(r.value) else Undefined;
      case AnyCache =>
        reply := CheckAllCaches(req.url, network);
    }

    /** The storing half of `cache.addAll(urls)`: every fetched response, under its URL. */
    method PutEach(name: string, urls: seq<string>, responses: seq<Response>)
      requires Valid() && name in entries
      requires |responses| == |urls|
      modifies this
      ensures Valid()
      ensures State() == Storage(old(names), old(entries)[name := PutInOrder(old(entries)[name], urls, responses)])
    {
      ghost var before := State();
      var i := 0;
      while i < |urls|
        invariant 0 <= i <= |urls|
        invariant names == before.names && name in entries
        invariant entries == before.entries[name := PutInOrder(before.entries[name], urls[..i], responses[..i])]
      {
        assert urls[..i + 1][..i] == urls[..i] && responses[..i + 1][..i] == responses[..i];
        entries := entries[name := entries[name][urls[i] := responses[i]]];
        i := i + 1;
      }
      assert urls[..|urls|] == urls && responses[..|responses|] == responses;
      assert entries.Keys == before.entries.Keys;
    }

    /**
     * `onInstalling(staticCacheName)` in a worker whose origin is `origin`:
     * pre-cache the manifest, all or nothing.
     */
    method OnInstalling(origin: string, network: Network) returns (ok: bool)
      requires Valid()
      modifies this
      ensures Valid()
      ensures InstallOutcome(State(), ok) == Installed(old(State()), origin, network)
    {
      Open(StaticCacheName);
      var urls := ManifestUrls(origin);
      var responses := FetchAll(urls, network);
      if responses.None? {
        return false;
      }
      assert responses.value == FetchedResponses(urls, network);
      PutEach(StaticCacheName, urls, responses.value);
      return true;
    }

    /** `onActivate()`: delete every stale cache. */
    method OnActivate()
      requires Valid()
      modifies this
      ensures Valid() && State() == Activated(old(State()))
    {
      var doomed := StaleNames(names);
      ghost var before := State();
      var i := 0;
      assert doomed[..0] == [];
      while i < |doomed|
        invariant 0 <= i <= |doomed|
        invariant Valid()
        invariant State() == Pruned(before, doomed[..i])
      {
        PrunedOneMore(before, doomed, i);
        Delete(doomed[i]);
        i := i + 1;
      }
      assert doomed[..|doomed|] == doomed;
    }
  }
}
