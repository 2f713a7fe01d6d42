/**
 * Model of the restaurant list page (public/js/main.js): the page globals
 * `self.restaurants` and `self.markers`, and the `restaurants` and `reviews`
 * object stores the page writes with keyed `put`s.
 */
module MainPage {
  import opened Wrappers
  import opened DBHelper
  import opened ObjectStore

  // ---------------------------------------------------------------------------
  // store.getAll()

  /** Reads the store in key order, one key at a time. */
  method ReadAll(store: map<int, Restaurant>) returns (all: seq<Restaurant>)
    ensures all == GetAll(store)
  {
    all := [];
    var keys := store.Keys;
    while keys != {}
      invariant keys <= store.Keys
      invariant all + RecordsAt(store, SortedKeys(keys)) == GetAll(store)
      decreases keys
    {
      MinKeyExists(keys);
      var k :| k in keys && forall x :: x in keys ==> k <= x;
      ReadLeastKey(store, keys, k, all);
      all := all + [store[k]];
      keys := keys - {k};
    }
  }

  // ---------------------------------------------------------------------------
  // The page

  /** A map marker placed for a restaurant; clicking it opens `url`. */
  datatype Marker = Marker(restaurantId: int, url: string)

  /** `restaurant.is_favorite = !restaurant.is_favorite` */
  function Toggled(r: Restaurant): (t: Restaurant)
    ensures t.isFavorite != r.isFavorite && t.(isFavorite := r.isFavorite) == r
  {
    r.(isFavorite := !r.isFavorite)
  }

  /** Toggling twice gives back the original record. */
  lemma {:induction false} ToggledTwice(r: Restaurant)
    ensures Toggled(Toggled(r)) == r
  {
  }

  /**
   * The list page. `restaurants` is `self.restaurants` (`None` would be
   * `undefined`); the stores are the `restaurants` store, keyed by id, and the
   * `reviews` store, keyed by the review's id.
   */
  class Page {
    var restaurants: Option<seq<Restaurant>>
    var markers: seq<Marker>
    var restaurantStore: map<int, Restaurant>
    var reviewStore: map<Option<int>, Review>

    /** `self.restaurants` is always an array, and the store keeps records under their ids. */
    ghost predicate Valid()
      reads this
    {
      restaurants.Some? && KeyedById(restaurantStore)
    }

    /** Page load: `self.restaurants = []`, `self.markers = []`; the stores hold what earlier visits left. */
    constructor (storedRestaurants: map<int, Restaurant>, storedReviews: map<Option<int>, Review>)
      requires KeyedById(storedRestaurants)
      ensures Valid()
      ensures restaurants == Some([]) && markers == []
      ensures restaurantStore == storedRestaurants && reviewStore == storedReviews
    {
      restaurants := Some([]);
      markers := [];
      restaurantStore := storedRestaurants;
      reviewStore := storedReviews;
    }

    /** `cacheRestaurants(restaurants)`: with a database and a list, put every restaurant. */
    method CacheRestaurants(rs: Option<seq<Restaurant>>, db: bool)
      requires Valid()
      modifies this`restaurantStore
      ensures Valid()
      ensures restaurantStore == if db && rs.Some? then PutAll(old(restaurantStore), rs.value, RestaurantKey)
                                 else old(restaurantStore)
    {
      if !db || rs.None? {
        return;
      }
      var list := rs.value;
      var i := 0;
      while i < |list|
        invariant 0 <= i <= |list|
        invariant restaurantStore == PutAll(old(restaurantStore), list[..i], RestaurantKey)
      {
        PutAllStep(old(restaurantStore), list, i, RestaurantKey);
        restaurantStore := restaurantStore[list[i].id := list[i]];
        i := i + 1;
      }
      assert list[..i] == list;
      PutAllKeepsKeyedById(old(restaurantStore), list);
    }

    /** The upsert part of `fetchReviews()`: with a fetched list and a database, put every review. */
    method FetchReviews(fetched: Option<seq<Review>>, db: bool)
      modifies this`reviewStore
      ensures reviewStore == if db && fetched.Some? then PutAll(old(reviewStore), fetched.value, ReviewKey)
                             else old(reviewStore)
    {
      if fetched.None? || !db {
        return;
      }
      var list := fetched.value;
      var i := 0;
      while i < |list|
        invariant 0 <= i <= |list|
        invariant reviewStore == PutAll(old(reviewStore), list[..i], ReviewKey)
      {
        PutAllStep(old(reviewStore), list, i, ReviewKey);
        reviewStore := reviewStore[list[i].id := list[i]];
        i := i + 1;
      }
      assert list[..i] == list;
    }

    /**
     * `toggleFavorite(restaurant)` for the restaurant shown at position `i`: flip
     * its flag in place, then put it. Without a database `db.transaction` throws
     * (`ok` is false) after the flip.
     */
    method ToggleFavorite(i: nat, db: bool) returns (ok: bool)
      requires Valid() && i < |restaurants.value|
      modifies this`restaurants, this`restaurantStore
      ensures Valid()
      ensures restaurants == Some(old(restaurants).value[i := Toggled(old(restaurants).value[i])])
      ensures ok == db
      ensures restaurantStore == if db then old(restaurantStore)[restaurants.value[i].id := restaurants.value[i]]
                                 else old(restaurantStore)
    {
      var r := Toggled(restaurants.value[i]);
      restaurants := Some(restaurants.value[i := r]);
      if !db {
        return false;
      }
      restaurantStore := restaurantStore[r.id := r];
      return true;
    }

    /** `resetRestaurants(restaurants)`: drop every marker and show the given list. */
    method ResetRestaurants(rs: seq<Restaurant>)
      requires Valid()
      modifies this`restaurants, this`markers
      ensures Valid()
      ensures restaurants == Some(rs) && markers == []
    {
      restaurants := Some([]);
      markers := [];
      restaurants := Some(rs);
    }

    /**
     * `getCachedRestaurants()`: unless the database is missing or a list is already
     * shown, show every stored restaurant. Since `self.restaurants` is always an
     * array, and every array is truthy, the guard always fires on a valid page.
     */
    method GetCachedRestaurants(db: bool) returns (guardFired: bool)
      modifies this`restaurants
      ensures guardFired <==> !db || old(restaurants).Some?
      ensures guardFired ==> restaurants == old(restaurants)
      ensures !guardFired ==> restaurants == Some(GetAll(restaurantStore))
      ensures old(Valid()) ==> guardFired && Valid()
    {
      if !db || restaurants.Some? {
        return true;
      }
      var all := ReadAll(restaurantStore);
      restaurants := Some(all);
      return false;
    }

    /**
     * `getCachedRestaurants()` with the guard its comment describes: skip only when
     * the database is missing or a non-empty list is already being displayed.
     * Otherwise the page shows every stored restaurant, in id order.
     */
    method GetCachedRestaurantsWhenEmpty(db: bool) returns (skipped: bool)
      requires Valid()
      modifies this`restaurants
      ensures Valid()
      ensures skipped <==> !db || |old(restaurants).value| > 0
      ensures skipped ==> restaurants == old(restaurants)
      ensures !skipped ==> && restaurants == Some(GetAll(restaurantStore))
                           && (forall r :: r in restaurants.value <==> r in restaurantStore.Values)
                           && (forall i, j :: 0 <= i < j < |restaurants.value| ==>
                                 restaurants.value[i].id < restaurants.value[j].id)
    {
      if !db || |restaurants.value| > 0 {
        return true;
      }
      var all := ReadAll(restaurantStore);
      GetAllMembers(restaurantStore);
      GetAllOrderedById(restaurantStore);
      restaurants := Some(all);
      return false;
    }

    /**
     * `updateRestaurants()` once the selects are read: when the filtered list is
     * truthy, show it, cache it, and reset the list and markers to it.
     */
    method UpdateRestaurants(fetched: Option<seq<Restaurant>>, cuisine: string, neighborhood: string, db: bool)
      requires Valid()
      modifies this`restaurants, this`markers, this`restaurantStore
      ensures Valid()
      ensures var rs := FetchRestaurantByCuisineAndNeighborhood(fetched, cuisine, neighborhood);
        && (rs.None? ==> restaurants == old(restaurants) && markers == old(markers)
                         && restaurantStore == old(restaurantStore))
        && (rs.Some? ==> restaurants == rs && markers == []
                         && restaurantStore == if db then PutAll(old(restaurantStore), rs.value, RestaurantKey)
                                              else old(restaurantStore))
    {
      var rs := FetchRestaurantByCuisineAndNeighborhood(fetched, cuisine, neighborhood);
      if rs.None? {
        return;
      }
      restaurants := rs;
      CacheRestaurants(rs, db);
      ResetRestaurants(rs.value);
    }
  }

  /**
   * Toggling the same shown restaurant twice restores the list, and the store
   * then holds the restaurant with its original flag.
   */
  method ToggleTwice(page: Page, i: nat)
    requires page.Valid() && i < |page.restaurants.value|
    modifies page
    ensures page.Valid()
    ensures page.restaurants == old(page.restaurants)
    ensures var r := old(page.restaurants).value[i];
      r.id in page.restaurantStore && page.restaurantStore[r.id] == r
  {
    var first := page.ToggleFavorite(i, true);
    var second := page.ToggleFavorite(i, true);
    ToggledTwice(old(page.restaurants).value[i]);
    assert page.restaurants.value == old(page.restaurants).value;
  }

  /**
   * On a freshly loaded page with the database open, `getCachedRestaurants` as
   * written shows nothing, however many restaurants the store holds.
   */
  method CachedListNeverShown(stored: map<int, Restaurant>) returns (shown: seq<Restaurant>)
    requires KeyedById(stored)
    ensures shown == []
  {
    var page := new Page(stored, map[]);
    var fired := page.GetCachedRestaurants(true);
    shown := page.restaurants.value;
  }

  /** With the intended guard the same page shows one record per stored restaurant. */
  method CachedListShownWhenEmpty(stored: map<int, Restaurant>) returns (shown: seq<Restaurant>)
    requires KeyedById(stored)
    ensures |shown| == |stored|
    ensures forall r :: r in shown <==> r in stored.Values
  {
    var page := new Page(stored, map[]);
    var skipped := page.GetCachedRestaurantsWhenEmpty(true);
    shown := page.restaurants.value;
  }
}
