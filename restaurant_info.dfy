/**
 * Model of the restaurant page script (public/js/restaurant_info.js): the
 * query-string parser `getParameterByName`, and the page state the script
 * keeps in `self.restaurant` and `self.reviews` together with the object
 * stores it writes.
 */
module RestaurantInfo {
  import opened Wrappers
  import opened JsValues
  import opened DBHelper

  // ---------------------------------------------------------------------------
  // getParameterByName

  /** The answer of `getParameterByName`: `null`, a string, or the `URIError` thrown by decoding. */
  datatype Param = Null | Value(s: string) | UriError

  predicate IsParamStart(c: char) {
    c == '?' || c == '&'
  }

  /** A character that ends a parameter value: `&` or `#`. */
  predicate EndsValue(c: char) {
    c == '&' || c == '#'
  }

  /**
   * The regular expression `[?&]name(=([^&#]*)|&|#|$)` matches at position `p`:
   * `?` or `&`, the name, then `=`, `&`, `#` or the end of the URL.
   */
  predicate MatchesAt(url: string, name: string, p: nat)
    ensures MatchesAt(url, name, p) ==>
      p + 1 + |name| <= |url| && IsParamStart(url[p]) && StartsWith(url[p + 1..], name)
  {
    && p < |url|
    && IsParamStart(url[p])
    && p + 1 + |name| <= |url|
    && url[p + 1..p + 1 + |name|] == name
    && (p + 1 + |name| == |url| || url[p + 1 + |name|] == '=' || EndsValue(url[p + 1 + |name|]))
  }

  /** `regex.exec(url)` finds the leftmost match at or after `from`. */
  function FirstMatchFrom(url: string, name: string, from: nat): (p: Option<nat>)
    ensures p.None? ==> forall k :: from <= k ==> !MatchesAt(url, name, k)
    ensures p.Some? ==> from <= p.value && MatchesAt(url, name, p.value)
                        && forall k :: from <= k < p.value ==> !MatchesAt(url, name, k)
    decreases |url| - from
  {
    if from >= |url| then None
    else if MatchesAt(url, name, from) then Some(from)
    else FirstMatchFrom(url, name, from + 1)
  }

  /** The group `([^&#]*)`: the characters from `q` up to the first `&` or `#`, or the end. */
  function ValueRun(url: string, q: nat): (v: string)
    requires q <= |url|
    ensures q + |v| <= |url| && v == url[q..q + |v|]
    ensures forall i :: 0 <= i < |v| ==> !EndsValue(v[i])
    ensures q + |v| == |url| || EndsValue(url[q + |v|])
    decreases |url| - q
  {
    if q == |url| || EndsValue(url[q]) then []
    else [url[q]] + ValueRun(url, q + 1)
  }

  /** `s.replace(/\+/g, ' ')` */
  function PlusToSpace(s: string): (r: string)
    ensures |r| == |s|
    ensures forall i :: 0 <= i < |s| ==> r[i] == if s[i] == '+' then ' ' else s[i]
  {
    if s == [] then [] else [if s[0] == '+' then ' ' else s[0]] + PlusToSpace(s[1..])
  }

  /**
   * `decodeURIComponent(s)` for escapes of single-byte (ASCII) characters: `%XY`
   * becomes the character with code XY; a `%` not followed by two hex digits, or
   * an escape of a byte above 0x7F, fails. Decoding never lengthens the text,
   * text without `%` decodes to itself, and only a `%` can make it fail.
   */
  function DecodeUriComponent(s: string): (r: Option<string>)
    ensures r.Some? ==> |r.value| <= |s|
    ensures (forall i :: 0 <= i < |s| ==> s[i] != '%') ==> r == Some(s)
    ensures r.None? ==> exists i :: 0 <= i < |s| && s[i] == '%'
    decreases |s|
  {
    if s == [] then Some([])
    else if s[0] != '%' then
      assert s == [s[0]] + s[1..];
      assert (forall i :: 0 <= i < |s| ==> s[i] != '%') ==> (forall i :: 0 <= i < |s[1..]| ==> s[1..][i] != '%');
      match DecodeUriComponent(s[1..])
      case None =>
        var i :| 0 <= i < |s[1..]| && s[1..][i] == '%';
        assert s[i + 1] == '%';
        None
      case Some(rest) => Some([s[0]] + rest)
    else if 3 <= |s| && IsHexDigit(s[1]) && IsHexDigit(s[2]) && HexValue(s[1]) < 8 then
      match DecodeUriComponent(s[3..])
      case None => None
      case Some(rest) => Some([(HexValue(s[1]) * 16 + HexValue(s[2])) as char] + rest)
    else None
  }

  /**
   * The decoded value of a parameter written `name=v`: `+` reads as a space and
   * escapes are decoded; a value without `%` cannot throw.
   */
  function DecodedValue(v: string): (r: Param)
    ensures !r.Null?
    ensures (forall i :: 0 <= i < |v| ==> v[i] != '%') ==> r == Value(PlusToSpace(v))
    ensures r.UriError? ==> exists i :: 0 <= i < |v| && v[i] == '%'
  {
    if v == "" then Value("")
    else
      var spaced := PlusToSpace(v);
      assert forall i :: 0 <= i < |v| ==> (spaced[i] == '%' <==> v[i] == '%');
      match DecodeUriComponent(spaced)
      case None => UriError
      case Some(d) => Value(d)
  }

  /** The address `getParameterByName` reads: `url`, or the page's own when `url` is empty. */
  function AddressRead(url: string, locationHref: string): string {
    if url == "" then locationHref else url
  }

  /** `getParameterByName(name, url)`; an empty `url` falls back to the page's own address. */
  function GetParameterByName(name: string, url: string, locationHref: string): (r: Param)
    ensures r.Null? <==> forall k :: !MatchesAt(AddressRead(url, locationHref), name, k)
  {
    var u := AddressRead(url, locationHref);
    match FirstMatchFrom(u, name, 0)
    case None => Null
    case Some(p) =>
      assert MatchesAt(u, name, p);
      ValueAfterName(u, p + 1 + |name|)
  }

  /** The parameter's value when its name ends just before `q`: empty unless `=` follows. */
  function ValueAfterName(u: string, q: nat): (r: Param)
    requires q <= |u|
    ensures !r.Null?
    ensures r.Value? && r.s != "" ==> q < |u| && u[q] == '='
  {
    if q == |u| || u[q] != '=' then Value("")
    else DecodedValue(ValueRun(u, q + 1))
  }

  /**
   * When the leftmost match is at `p` and carries `=value`, the answer is the
   * decoded value, which runs up to the next `&` or `#`; matches further right
   * are ignored.
   */
  lemma {:induction false} ParameterValueAt(name: string, url: string, p: nat, value: string, rest: string,
                                            locationHref: string)
    requires MatchesAt(url, name, p)
    requires forall k :: 0 <= k < p ==> !MatchesAt(url, name, k)
    requires p + 1 + |name| < |url| && url[p + 1 + |name|] == '='
    requires url[p + 2 + |name|..] == value + rest
    requires forall i :: 0 <= i < |value| ==> !EndsValue(value[i])
    requires rest == [] || EndsValue(rest[0])
    ensures GetParameterByName(name, url, locationHref) == DecodedValue(value)
  {
    FirstMatchAt(url, name, 0, p);
    ValueRunIs(url, p + 2 + |name|, value, rest);
    ParameterAt(name, url, p, locationHref);
  }

  /** Once the leftmost match is at `p` and followed by `=`, the answer is the value after it. */
  lemma {:induction false} ParameterAt(name: string, url: string, p: nat, locationHref: string)
    requires url != "" && FirstMatchFrom(url, name, 0) == Some(p)
    requires p + 1 + |name| < |url| && url[p + 1 + |name|] == '='
    ensures GetParameterByName(name, url, locationHref) == DecodedValue(ValueRun(url, p + 2 + |name|))
  {
    LeftmostMatchAnswers(name, url, p, locationHref);
    ValueAfterEquals(url, p + 1 + |name|);
  }

  lemma LeftmostMatchAnswers(name: string, url: string, p: nat, locationHref: string)
    requires url != "" && FirstMatchFrom(url, name, 0) == Some(p)
    ensures p + 1 + |name| <= |url|
    ensures GetParameterByName(name, url, locationHref) == ValueAfterName(url, p + 1 + |name|)
  {
    assert AddressRead(url, locationHref) == url;
  }

  lemma ValueAfterEquals(u: string, q: nat)
    requires q < |u| && u[q] == '='
    ensures ValueAfterName(u, q) == DecodedValue(ValueRun(u, q + 1))
  {
  }

  /** Within the page name `./restaurant.html` no parameter can start. */
  lemma {:induction false} PageNameHasNoParameter(url: string, d: string)
    requires url == "./restaurant.html?id=" + d
    ensures forall k :: 0 <= k < |"./restaurant.html"| ==> !MatchesAt(url, "id", k)
  {
    forall k | 0 <= k < |"./restaurant.html"| ensures !IsParamStart(url[k]) {
      assert url[k] == "./restaurant.html"[k];
    }
  }

  /** The leftmost match at or after `from` is `p` when nothing between them matches. */
  lemma {:induction false} FirstMatchAt(url: string, name: string, from: nat, p: nat)
    requires from <= p && MatchesAt(url, name, p)
    requires forall k :: from <= k < p ==> !MatchesAt(url, name, k)
    ensures FirstMatchFrom(url, name, from) == Some(p)
    decreases p - from
  {
    if from < p {
      FirstMatchAt(url, name, from + 1, p);
    }
  }

  /** The run starting at `q` stops where the value stops. */
  lemma {:induction false} ValueRunIs(url: string, q: nat, value: string, rest: string)
    requires q <= |url| && url[q..] == value + rest
    requires forall i :: 0 <= i < |value| ==> !EndsValue(value[i])
    requires rest == [] || EndsValue(rest[0])
    ensures ValueRun(url, q) == value
    decreases |value|
  {
    if value != [] {
      assert url[q] == value[0];
      assert url[q + 1..] == value[1..] + rest;
      ValueRunIs(url, q + 1, value[1..], rest);
    } else if rest != [] {
      assert url[q] == rest[0];
    }
  }

  /**
   * The page link built by `DBHelper.urlForRestaurant` carries the restaurant's id:
   * reading `id` back from it gives the decimal text of the id.
   */
  lemma {:induction false} RoundTripRestaurantId(r: Restaurant, locationHref: string)
    ensures GetParameterByName("id", UrlForRestaurant(r), locationHref) == Value(IntToDecimal(r.id))
  {
    var url := UrlForRestaurant(r);
    var d := IntToDecimal(r.id);
    var page := "./restaurant.html?id=";
    assert url == page + d;
    var p := |"./restaurant.html"|;
    assert url[p..p + 4] == page[p..];
    assert url[p + 1..p + 3] == "id";
    assert url[p + 4..] == d + [];
    PageNameHasNoParameter(url, d);
    forall i | 0 <= i < |d| ensures !EndsValue(d[i]) && d[i] != '+' && d[i] != '%' {
    }
    ParameterValueAt("id", url, p, d, [], locationHref);
    assert PlusToSpace(d) == d;
  }

  /** ...and that text finds the restaurant by loose equality, as the page does with it. */
  lemma {:induction false} RoundTripFindsRestaurant(rs: seq<Restaurant>, r: Restaurant, locationHref: string)
    requires r in rs
    ensures var id := GetParameterByName("id", UrlForRestaurant(r), locationHref);
      id.Value? && FetchRestaurantById(Some(rs), Str(id.s)).Found?
      && FetchRestaurantById(Some(rs), Str(id.s)).restaurant.id == r.id
  {
    RoundTripRestaurantId(r, locationHref);
    StringToNumberOfDecimal(r.id);
    var i :| 0 <= i < |rs| && rs[i] == r;
    assert LooselyEquals(rs[i].id, Str(IntToDecimal(r.id)));
  }

  /** A name that only starts or ends another parameter's name does not match it. */
  lemma {:induction false} ParameterNameMustBeWhole()
    ensures GetParameterByName("id", "?idx=5", "") == Null
    ensures GetParameterByName("id", "?xid=5", "") == Null
  {
    assert AddressRead("?idx=5", "") == "?idx=5" && AddressRead("?xid=5", "") == "?xid=5";
    forall k ensures !MatchesAt("?idx=5", "id", k) {
      if k == 0 {
        assert "?idx=5"[3] == 'x';
      }
    }
    forall k ensures !MatchesAt("?xid=5", "id", k) {
      if k == 0 {
        assert "?xid=5"[1..3][0] == 'x';
      }
    }
  }

  /** A parameter without `=`, or with nothing after it, is the empty string. */
  lemma {:induction false} ParameterWithoutValue()
    ensures GetParameterByName("id", "?id", "") == Value("")
    ensures GetParameterByName("id", "?id&x", "") == Value("")
    ensures GetParameterByName("id", "?id=", "") == Value("")
  {
    assert MatchesAt("?id", "id", 0);
    assert MatchesAt("?id&x", "id", 0);
    assert MatchesAt("?id=", "id", 0);
  }

  /** The first occurrence wins. */
  lemma {:induction false} ParameterFirstOccurrence()
    ensures GetParameterByName("id", "?id=1&id=2", "") == Value("1")
  {
    assert "?id=1&id=2"[4..] == "1" + "&id=2";
    ParameterValueAt("id", "?id=1&id=2", 0, "1", "&id=2", "");
  }

  /** `+` reads as a space, and the value stops at `#`. */
  lemma {:induction false} ParameterPlusIsSpace()
    ensures GetParameterByName("q", "?q=a+b#top", "") == Value("a b")
  {
    assert "?q=a+b#top"[3..] == "a+b" + "#top";
    ParameterValueAt("q", "?q=a+b#top", 0, "a+b", "#top", "");
    assert PlusToSpace("a+b") == "a b";
  }

  // ---------------------------------------------------------------------------
  // Page state

  /** How `handleSubmit` ends. */
  datatype SubmitOutcome =
    | Sent        // the remote add resolved
    | Queued      // the remote add threw; the review went to the offline store
    | Raised      // a `TypeError` before the remote add: no database, no restaurant, or no review list

  /**
   * The restaurant page: `self.restaurant` and `self.reviews` (`None` is
   * `undefined`), the `restaurants` object store, and the records added to the
   * `reviews` and `offlineStore` object stores, in the order they were added.
   */
  class RestaurantPage {
    var restaurant: Option<Restaurant>
    var reviews: Option<seq<Review>>
    var restaurantStore: map<int, Restaurant>
    var reviewStore: seq<Review>
    var offlineStore: seq<Review>

    /** Page load: both globals undefined; the stores hold what earlier visits left. */
    constructor (restaurants: map<int, Restaurant>, storedReviews: seq<Review>, queued: seq<Review>)
      ensures restaurant == None && reviews == None
      ensures restaurantStore == restaurants && reviewStore == storedReviews && offlineStore == queued
    {
      restaurant := None;
      reviews := None;
      restaurantStore := restaurants;
      reviewStore := storedReviews;
      offlineStore := queued;
    }

    /**
     * `getCachedRestaurant(id)`: when the database is open and no restaurant is
     * shown yet, show the stored record under `parseInt(id)`, if any. When
     * `parseInt(id)` is NaN, `store.get` throws a DataError (NaN is not a valid
     * key) and the returned promise rejects: `ok` is false and nothing is shown.
     */
    method GetCachedRestaurant(id: string, db: bool) returns (ok: bool)
      modifies this`restaurant
      ensures ok <==> !(db && old(restaurant).None? && ParseInt(id).None?)
      ensures !db || old(restaurant).Some? ==> restaurant == old(restaurant)
      ensures db && old(restaurant).None? ==>
        restaurant == (match ParseInt(id)
                       case Some(key) => if key in restaurantStore then Some(restaurantStore[key]) else None
                       case None => None)
    {
      if !db || restaurant.Some? {
        return true;
      }
      var key := ParseInt(id);
      if key.None? {
        return false;
      }
      if key.value in restaurantStore {
        restaurant := Some(restaurantStore[key.value]);
      }
      ok := true;
    }

    /**
     * The update rule of `fetchDataFromNetwork`: the fetched restaurant replaces the
     * shown one when it is truthy and different; the fetched reviews replace the shown
     * ones only when truthy and strictly longer. With no review list shown yet,
     * reading its `length` throws (`ok` is false) after the restaurant step.
     */
    method FetchDataFromNetwork(fetchedRestaurant: Lookup, fetchedReviews: Option<seq<Review>>)
      returns (ok: bool)
      modifies this`restaurant, this`reviews
      ensures restaurant == (if fetchedRestaurant.Found? then Some(fetchedRestaurant.restaurant)
                             else old(restaurant))
      ensures ok <==> fetchedReviews.None? || old(reviews).Some?
      ensures reviews == (if fetchedReviews.Some? && old(reviews).Some?
                             && |old(reviews).value| < |fetchedReviews.value|
                          then fetchedReviews else old(reviews))
      ensures old(reviews).Some? ==> reviews.Some? && |old(reviews).value| <= |reviews.value|
    {
      if fetchedRestaurant.Found? && restaurant != Some(fetchedRestaurant.restaurant) {
        restaurant := Some(fetchedRestaurant.restaurant);
      }
      if fetchedReviews.Some? {
        if reviews.None? {
          return false;
        }
        if |reviews.value| < |fetchedReviews.value| {
          reviews := fetchedReviews;
        }
      }
      return true;
    }

    /**
     * `handleSubmit()`: build the review for the shown restaurant, add it to the
     * reviews store and to the shown list, then send it; only when sending throws
     * is it added to the offline store.
     */
    method HandleSubmit(name: string, rating: string, comments: string, createdAt: int, updatedAt: int,
                        db: bool, remoteThrows: bool)
      returns (outcome: SubmitOutcome)
      modifies this`reviews, this`reviewStore, this`offlineStore
      ensures outcome.Raised? <==> !db || old(restaurant).None? || old(reviews).None?
      ensures !db || old(restaurant).None? ==>
        reviews == old(reviews) && reviewStore == old(reviewStore) && offlineStore == old(offlineStore)
      ensures db && old(restaurant).Some? ==>
        var review := Review(None, old(restaurant).value.id, name, rating, comments, createdAt, updatedAt);
        && reviewStore == old(reviewStore) + [review]
        && (old(reviews).None? ==> reviews == old(reviews) && offlineStore == old(offlineStore))
        && (old(reviews).Some? ==>
              && reviews == Some(old(reviews).value + [review])
              && outcome == (if remoteThrows then Queued else Sent)
              && offlineStore == old(offlineStore) + (if remoteThrows then [review] else []))
    {
      if !db || restaurant.None? {
        return Raised;
      }
      var review := Review(None, restaurant.value.id, name, rating, comments, createdAt, updatedAt);
      reviewStore := reviewStore + [review];
      if reviews.None? {
        return Raised;
      }
      reviews := Some(reviews.value + [review]);
      if remoteThrows {
        offlineStore := offlineStore + [review];
        return Queued;
      }
      return Sent;
    }

    /** `resetReviews(reviews)`: the shown list becomes the given one. */
    method ResetReviews(newReviews: Option<seq<Review>>)
      modifies this`reviews
      ensures reviews == newReviews
    {
      reviews := newReviews;
    }
  }

  /**
   * A submitted review belongs to the shown restaurant and the shown list grows by
   * exactly that one review; the offline store grows only when the remote add failed.
   */
  method SubmitScenario(page: RestaurantPage, r: Restaurant, shown: seq<Review>, remoteThrows: bool)
    returns (outcome: SubmitOutcome)
    modifies page
    requires page.restaurant == Some(r) && page.reviews == Some(shown)
    ensures page.reviews.Some? && |page.reviews.value| == |shown| + 1
    ensures page.reviews.value[|shown|].restaurantId == r.id
    ensures outcome == (if remoteThrows then Queued else Sent)
    ensures |page.offlineStore| == |old(page.offlineStore)| + (if remoteThrows then 1 else 0)
  {
    outcome := page.HandleSubmit("name", "5", "comments", 0, 0, true, remoteThrows);
  }
}
