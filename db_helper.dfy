/**
 * Model of `DBHelper` (public/js/dbhelper.js): list queries over the result of
 * one `fetchRestaurants()` call, and the URL builders.
 *
 * `fetchRestaurants()` resolves either to the parsed JSON list or to `false`
 * when the fetch throws; every query takes that result as an
 * `Option<seq<Restaurant>>`, `None` standing for `false`.
 */
module DBHelper {
  import opened Wrappers
  import opened JsValues

  /** A restaurant record as served by the REST backend (the fields the core reads). */
  datatype Restaurant = Restaurant(
    id: int,
    name: string,
    neighborhood: string,
    cuisineType: string,
    photograph: string,
    isFavorite: bool)

  /** A review record; a review built on the page before the server saw it has no id. */
  datatype Review = Review(
    id: Option<int>,
    restaurantId: int,
    name: string,
    rating: string,
    comments: string,
    createdAt: int,
    updatedAt: int)

  /** The two categorical attributes the page filters and enumerates by. */
  datatype Field = Neighborhood | Cuisine

  function FieldOf(r: Restaurant, f: Field): string {
    match f
    case Neighborhood => r.neighborhood
    case Cuisine => r.cuisineType
  }

  /** `idx` lists, in increasing order, positions of `b` that hold the elements of `a`. */
  ghost predicate Embeds<T>(idx: seq<nat>, a: seq<T>, b: seq<T>) {
    && |idx| == |a|
    && (forall k :: 0 <= k < |idx| ==> idx[k] < |b| && a[k] == b[idx[k]])
    && (forall k, l :: 0 <= k < l < |idx| ==> idx[k] < idx[l])
  }

  /** `a` is an order-preserving sublist of `b`. */
  ghost predicate IsSubsequence<T>(a: seq<T>, b: seq<T>) {
    exists idx :: Embeds(idx, a, b)
  }

  lemma {:induction false} SubsequenceTransitive<T>(a: seq<T>, b: seq<T>, c: seq<T>)
    requires IsSubsequence(a, b) && IsSubsequence(b, c)
    ensures IsSubsequence(a, c)
  {
    var ab :| Embeds(ab, a, b);
    var bc :| Embeds(bc, b, c);
    var ac := seq(|ab|, k requires 0 <= k < |ab| => bc[ab[k]]);
    assert Embeds(ac, a, c);
  }

  lemma {:induction false} SubsequenceReflexive<T>(a: seq<T>)
    ensures IsSubsequence(a, a)
  {
    var idx := seq(|a|, k => k);
    assert Embeds(idx, a, a);
  }

  /** `rs.filter(r => r[f] == v)` */
  function Where(rs: seq<Restaurant>, f: Field, v: string): (out: seq<Restaurant>)
    ensures |out| <= |rs|
    ensures forall x :: x in out ==> x in rs && FieldOf(x, f) == v
  {
    if rs == [] then []
    else (if FieldOf(rs[0], f) == v then [rs[0]] else []) + Where(rs[1..], f, v)
  }

  /** The filter keeps exactly the restaurants whose field has the value. */
  lemma {:induction false} WhereMembers(rs: seq<Restaurant>, f: Field, v: string, x: Restaurant)
    ensures x in Where(rs, f, v) <==> x in rs && FieldOf(x, f) == v
  {
    if rs != [] {
      WhereMembers(rs[1..], f, v, x);
      assert rs == [rs[0]] + rs[1..];
    }
  }

  /** Positions into the tail of `b`, moved one place to the right, are positions into `b`. */
  function Shifted(idx: seq<nat>): (out: seq<nat>)
    ensures |out| == |idx| && forall k :: 0 <= k < |idx| ==> out[k] == idx[k] + 1
  {
    seq(|idx|, k requires 0 <= k < |idx| => idx[k] + 1)
  }

  lemma {:induction false} EmbedsInTail<T>(idx: seq<nat>, a: seq<T>, b: seq<T>)
    requires b != [] && Embeds(idx, a, b[1..])
    ensures Embeds(Shifted(idx), a, b)
    ensures Embeds([0] + Shifted(idx), [b[0]] + a, b)
  {
    var sh := Shifted(idx);
    assert forall k :: 0 <= k < |sh| ==> b[sh[k]] == b[1..][idx[k]];
    var ext := [0] + sh;
    var a' := [b[0]] + a;
    forall k | 0 <= k < |ext| ensures ext[k] < |b| && a'[k] == b[ext[k]] {
      if k > 0 {
        assert ext[k] == sh[k - 1] && a'[k] == a[k - 1];
      }
    }
  }

  /** The positions of `rs` that the filter keeps, in increasing order. */
  lemma {:induction false} WhereEmbedding(rs: seq<Restaurant>, f: Field, v: string) returns (idx: seq<nat>)
    ensures Embeds(idx, Where(rs, f, v), rs)
  {
    if rs == [] {
      idx := [];
    } else {
      var tail := WhereEmbedding(rs[1..], f, v);
      EmbedsInTail(tail, Where(rs[1..], f, v), rs);
      if FieldOf(rs[0], f) == v {
        idx := [0] + Shifted(tail);
      } else {
        idx := Shifted(tail);
      }
    }
  }

  /** The filter keeps the relative order of what it keeps. */
  lemma {:induction false} WhereIsSubsequence(rs: seq<Restaurant>, f: Field, v: string)
    ensures IsSubsequence(Where(rs, f, v), rs)
  {
    var idx := WhereEmbedding(rs, f, v);
  }

  /**
   * Filtering distributes over concatenation; together with the one-element case
   * this pins the filter down as "keep, in order, exactly the matching elements".
   */
  lemma {:induction false} WhereAppend(a: seq<Restaurant>, b: seq<Restaurant>, f: Field, v: string)
    ensures Where(a + b, f, v) == Where(a, f, v) + Where(b, f, v)
  {
    if a != [] {
      var head := if FieldOf(a[0], f) == v then [a[0]] else [];
      assert (a + b)[0] == a[0];
      assert (a + b)[1..] == a[1..] + b;
      WhereAppend(a[1..], b, f, v);
      calc {
        Where(a + b, f, v);
        head + Where(a[1..] + b, f, v);
        head + (Where(a[1..], f, v) + Where(b, f, v));
        (head + Where(a[1..], f, v)) + Where(b, f, v);
        Where(a, f, v) + Where(b, f, v);
      }
    } else {
      assert a + b == b;
    }
  }

  /** A list whose every element matches is left as it is. */
  lemma {:induction false} WhereAllMatching(rs: seq<Restaurant>, f: Field, v: string)
    requires forall i :: 0 <= i < |rs| ==> FieldOf(rs[i], f) == v
    ensures Where(rs, f, v) == rs
  {
    if rs != [] {
      WhereAllMatching(rs[1..], f, v);
    }
  }

  /** Filtering twice by the same value is filtering once. */
  lemma {:induction false} WhereIdempotent(rs: seq<Restaurant>, f: Field, v: string)
    ensures Where(Where(rs, f, v), f, v) == Where(rs, f, v)
  {
    var w := Where(rs, f, v);
    assert forall i :: 0 <= i < |w| ==> w[i] in w;
    WhereAllMatching(w, f, v);
  }

  /** The two filters of the combined query commute. */
  lemma {:induction false} WhereCommutes(rs: seq<Restaurant>, f: Field, v: string, g: Field, u: string)
    ensures Where(Where(rs, f, v), g, u) == Where(Where(rs, g, u), f, v)
  {
    if rs != [] {
      WhereCommutes(rs[1..], f, v, g, u);
      var h := rs[0];
      var tf := Where(rs[1..], f, v);
      var tg := Where(rs[1..], g, u);
      var hf := if FieldOf(h, f) == v then [h] else [];
      var hg := if FieldOf(h, g) == u then [h] else [];
      assert Where(rs, f, v) == hf + tf;
      assert Where(rs, g, u) == hg + tg;
      WhereAppend(hf, tf, g, u);
      WhereAppend(hg, tg, f, v);
      assert Where(hf, g, u) == Where(hg, f, v);
    }
  }

  /** Outcome of `fetchRestaurantById`: `false`, `undefined` or the record. */
  datatype Lookup = FetchFailed | NotFound | Found(restaurant: Restaurant)

  /** `rs.find(r => r.id == id)`: the first restaurant whose id is loosely equal to `id`. */
  function FindById(rs: seq<Restaurant>, id: JsKey): (r: Option<Restaurant>)
    ensures r.None? <==> forall i :: 0 <= i < |rs| ==> !LooselyEquals(rs[i].id, id)
    ensures r.Some? ==> exists i :: 0 <= i < |rs| && rs[i] == r.value && LooselyEquals(rs[i].id, id)
                                    && forall j :: 0 <= j < i ==> !LooselyEquals(rs[j].id, id)
  {
    if rs == [] then None
    else if LooselyEquals(rs[0].id, id) then Some(rs[0])
    else
      var r := FindById(rs[1..], id);
      assert forall i :: 1 <= i < |rs| ==> rs[i] == rs[1..][i - 1];
      r
  }

  /** `DBHelper.fetchRestaurantById(id)` */
  function FetchRestaurantById(fetched: Option<seq<Restaurant>>, id: JsKey): (r: Lookup)
    ensures fetched.None? <==> r.FetchFailed?
    ensures r.Found? ==> r.restaurant in fetched.value && LooselyEquals(r.restaurant.id, id)
    ensures r.NotFound? ==> forall x :: x in fetched.value ==> !LooselyEquals(x.id, id)
  {
    match fetched
    case None => FetchFailed
    case Some(rs) =>
      match FindById(rs, id)
      case None => NotFound
      case Some(x) => Found(x)
  }

  /** A restaurant whose id is `n` is found by the decimal text of `n`, the form a page URL carries. */
  lemma {:induction false} FindByDecimalId(rs: seq<Restaurant>, n: int)
    ensures FindById(rs, Str(IntToDecimal(n))) == FindById(rs, Num(n))
  {
    StringToNumberOfDecimal(n);
    if rs != [] {
      FindByDecimalId(rs[1..], n);
    }
  }

  /** Outcome of the single-field filters: `false`, a rejected promise, or the list. */
  datatype FilterOutcome = ArgumentFalsy | Threw | Filtered(restaurants: seq<Restaurant>)

  /**
   * `fetchRestaurantByCuisine` / `fetchRestaurantByNeighborhood`: `false` for a falsy
   * argument (checked before fetching); when the fetch fails, `false.filter` throws.
   */
  function FetchRestaurantBy(f: Field, value: string, fetched: Option<seq<Restaurant>>): (r: FilterOutcome)
    ensures r.ArgumentFalsy? <==> value == ""
    ensures r.Threw? <==> value != "" && fetched.None?
    ensures r.Filtered? ==> forall x :: x in r.restaurants <==> x in fetched.value && FieldOf(x, f) == value
  {
    if value == "" then ArgumentFalsy
    else match fetched
      case None => Threw
      case Some(rs) =>
        var out := Where(rs, f, value);
        assert forall x :: x in out <==> x in rs && FieldOf(x, f) == value by {
          forall x { WhereMembers(rs, f, value, x); }
        }
        Filtered(out)
  }

  const All := "all"

  /** `DBHelper.fetchRestaurantByCuisineAndNeighborhood(cuisine, neighborhood)` */
  function FetchRestaurantByCuisineAndNeighborhood(
    fetched: Option<seq<Restaurant>>, cuisine: string, neighborhood: string): (r: Option<seq<Restaurant>>)
    ensures r.None? <==> fetched.None?
  {
    match fetched
    case None => None
    case Some(rs) =>
      var byCuisine := if cuisine != All then Where(rs, Cuisine, cuisine) else rs;
      Some(if neighborhood != All then Where(byCuisine, Neighborhood, neighborhood) else byCuisine)
  }

  /** With the sentinel on both dimensions the fetched list comes back unchanged. */
  lemma {:induction false} FilterAllAllIsIdentity(fetched: Option<seq<Restaurant>>)
    ensures FetchRestaurantByCuisineAndNeighborhood(fetched, All, All) == fetched
  {
  }

  /**
   * Otherwise the answer is an order-preserving sublist holding exactly the restaurants
   * that match every dimension not set to the sentinel.
   */
  lemma {:induction false} CombinedFilterSpec(rs: seq<Restaurant>, cuisine: string, neighborhood: string)
    ensures var out := FetchRestaurantByCuisineAndNeighborhood(Some(rs), cuisine, neighborhood).value;
      && IsSubsequence(out, rs)
      && forall x :: x in out <==>
           x in rs && (cuisine == All || x.cuisineType == cuisine)
                   && (neighborhood == All || x.neighborhood == neighborhood)
  {
    var byCuisine := if cuisine != All then Where(rs, Cuisine, cuisine) else rs;
    var out := if neighborhood != All then Where(byCuisine, Neighborhood, neighborhood) else byCuisine;
    if cuisine != All {
      WhereIsSubsequence(rs, Cuisine, cuisine);
    } else {
      SubsequenceReflexive(rs);
    }
    if neighborhood != All {
      WhereIsSubsequence(byCuisine, Neighborhood, neighborhood);
    } else {
      SubsequenceReflexive(byCuisine);
    }
    SubsequenceTransitive(out, byCuisine, rs);
    forall x
      ensures x in out <==> x in rs && (cuisine == All || x.cuisineType == cuisine)
                                    && (neighborhood == All || x.neighborhood == neighborhood)
    {
      WhereMembers(rs, Cuisine, cuisine, x);
      WhereMembers(byCuisine, Neighborhood, neighborhood, x);
    }
  }

  /** ("all", n) filters by neighborhood only, and (c, "all") by cuisine only. */
  lemma {:induction false} OneSidedFilters(rs: seq<Restaurant>, c: string, n: string)
    requires c != All && n != All
    ensures FetchRestaurantByCuisineAndNeighborhood(Some(rs), All, n) == Some(Where(rs, Neighborhood, n))
    ensures FetchRestaurantByCuisineAndNeighborhood(Some(rs), c, All) == Some(Where(rs, Cuisine, c))
    ensures FetchRestaurantByCuisineAndNeighborhood(Some(rs), c, n)
         == FetchRestaurantByCuisineAndNeighborhood(Some(Where(rs, Neighborhood, n)), c, All)
  {
    WhereCommutes(rs, Cuisine, c, Neighborhood, n);
  }

  // ---------------------------------------------------------------------------
  // Distinct neighborhoods and cuisines

  /** `restaurants.map((v, i) => restaurants[i][f])` */
  function Project(rs: seq<Restaurant>, f: Field): (out: seq<string>)
    ensures |out| == |rs| && forall i :: 0 <= i < |rs| ==> out[i] == FieldOf(rs[i], f)
  {
    if rs == [] then [] else [FieldOf(rs[0], f)] + Project(rs[1..], f)
  }

  /** `xs.indexOf(v)`: the first index holding `v`, or -1. */
  function IndexOf(xs: seq<string>, v: string): (i: int)
    ensures -1 <= i < |xs|
    ensures 0 <= i ==> xs[i] == v
  {
    if xs == [] then -1
    else if xs[0] == v then 0
    else
      var k := IndexOf(xs[1..], v);
      if k == -1 then -1 else k + 1
  }

  /** `indexOf` is -1 exactly for absent values, and otherwise the first position holding the value. */
  lemma {:induction false} IndexOfSpec(xs: seq<string>, v: string)
    ensures IndexOf(xs, v) == -1 <==> v !in xs
    ensures forall j :: 0 <= j < IndexOf(xs, v) ==> xs[j] != v
  {
    if xs != [] && xs[0] != v {
      IndexOfSpec(xs[1..], v);
      assert forall j :: 1 <= j < |xs| ==> xs[j] == xs[1..][j - 1];
      assert v in xs <==> v in xs[1..];
    }
  }

  /**
   * The elements `xs[j]`, `from <= j`, kept by `(v, j) => xs.indexOf(v) == j`: at
   * most one per position.
   */
  function FirstOccurrencesFrom(xs: seq<string>, from: nat): (r: seq<string>)
    requires from <= |xs|
    ensures |r| <= |xs| - from
    decreases |xs| - from
  {
    if from == |xs| then []
    else (if IndexOf(xs, xs[from]) == from then [xs[from]] else []) + FirstOccurrencesFrom(xs, from + 1)
  }

  /**
   * `xs.filter((v, i) => xs.indexOf(v) == i)`: no longer than `xs`, drawn from it,
   * and starting with `xs[0]`, which is always a first occurrence.
   */
  function Distinct(xs: seq<string>): (r: seq<string>)
    ensures |r| <= |xs|
    ensures forall v :: v in r ==> v in xs
    ensures xs != [] ==> r != [] && r[0] == xs[0]
  {
    assert forall v :: v in FirstOccurrencesFrom(xs, 0) ==> v in xs by {
      forall v | v in FirstOccurrencesFrom(xs, 0) ensures v in xs {
        FirstOccurrencesFromMembers(xs, 0, v);
      }
    }
    assert xs != [] ==> IndexOf(xs, xs[0]) == 0;
    FirstOccurrencesFrom(xs, 0)
  }

  /** What the suffix pass keeps: exactly the values first seen at or after `from`. */
  lemma {:induction false} FirstOccurrencesFromMembers(xs: seq<string>, from: nat, v: string)
    requires from <= |xs|
    ensures v in FirstOccurrencesFrom(xs, from) <==> v in xs && IndexOf(xs, v) >= from
    decreases |xs| - from
  {
    IndexOfSpec(xs, v);
    if from < |xs| {
      FirstOccurrencesFromMembers(xs, from + 1, v);
      var head := if IndexOf(xs, xs[from]) == from then [xs[from]] else [];
      var tail := FirstOccurrencesFrom(xs, from + 1);
      assert FirstOccurrencesFrom(xs, from) == head + tail;
      assert v in head + tail <==> v in head || v in tail;
      assert v in head <==> v == xs[from] && IndexOf(xs, v) == from;
    }
  }

  /** Where each value of `out` first occurs in `xs`. */
  function Positions(xs: seq<string>, out: seq<string>): seq<int> {
    seq(|out|, i requires 0 <= i < |out| => IndexOf(xs, out[i]))
  }

  predicate Increasing(ps: seq<int>) {
    forall k, l :: 0 <= k < l < |ps| ==> ps[k] < ps[l]
  }

  /** `out` lists values of `xs` in the order of their first occurrence in `xs`. */
  predicate InFirstOccurrenceOrder(xs: seq<string>, out: seq<string>) {
    Increasing(Positions(xs, out))
  }

  /** A number below every number of an increasing list can be put in front of it. */
  lemma IncreasingCons(p: int, ps: seq<int>)
    requires Increasing(ps)
    requires forall j :: 0 <= j < |ps| ==> p < ps[j]
    ensures Increasing([p] + ps)
  {
    var out := [p] + ps;
    forall k, l | 0 <= k < l < |out| ensures out[k] < out[l] {
      assert out[l] == ps[l - 1];
      if k > 0 {
        assert out[k] == ps[k - 1];
      }
    }
  }

  lemma {:induction false} FirstOccurrencesFromOrdered(xs: seq<string>, from: nat)
    requires from <= |xs|
    ensures InFirstOccurrenceOrder(xs, FirstOccurrencesFrom(xs, from))
    decreases |xs| - from
  {
    if from < |xs| {
      FirstOccurrencesFromOrdered(xs, from + 1);
      var tail := FirstOccurrencesFrom(xs, from + 1);
      if IndexOf(xs, xs[from]) == from {
        var ps := Positions(xs, tail);
        forall j | 0 <= j < |ps| ensures from < ps[j] {
          FirstOccurrencesFromMembers(xs, from + 1, tail[j]);
        }
        IncreasingCons(from, ps);
        var out := [xs[from]] + tail;
        assert Positions(xs, out) == [from] + ps by {
          forall i | 0 <= i < |out| ensures Positions(xs, out)[i] == ([from] + ps)[i] {
            if i > 0 {
              assert out[i] == tail[i - 1];
            }
          }
        }
        assert FirstOccurrencesFrom(xs, from) == out;
      } else {
        assert FirstOccurrencesFrom(xs, from) == tail;
      }
    }
  }

  /** The distinct values are exactly the values of the list. */
  lemma {:induction false} DistinctMembers(xs: seq<string>, v: string)
    ensures v in Distinct(xs) <==> v in xs
  {
    FirstOccurrencesFromMembers(xs, 0, v);
    IndexOfSpec(xs, v);
  }

  /**
   * The distinct values appear in the order of their first occurrence; in particular
   * none appears twice.
   */
  lemma {:induction false} DistinctFirstOccurrenceOrder(xs: seq<string>)
    ensures var out := Distinct(xs);
      && (forall k, l :: 0 <= k < l < |out| ==> IndexOf(xs, out[k]) < IndexOf(xs, out[l]))
      && NoDuplicates(out)
  {
    var zero: nat := 0;
    FirstOccurrencesFromOrdered(xs, zero);
    var out := Distinct(xs);
    assert out == FirstOccurrencesFrom(xs, zero);
    var ps := Positions(xs, out);
    forall k, l | 0 <= k < l < |out| ensures IndexOf(xs, out[k]) < IndexOf(xs, out[l]) && out[k] != out[l] {
      assert ps[k] < ps[l];
    }
  }

  predicate NoDuplicates(xs: seq<string>) {
    forall k, l :: 0 <= k < l < |xs| ==> xs[k] != xs[l]
  }

  /** A duplicate-free list is its own set of distinct values. */
  lemma {:induction false} DistinctOfDuplicateFree(xs: seq<string>, from: nat)
    requires NoDuplicates(xs) && from <= |xs|
    ensures FirstOccurrencesFrom(xs, from) == xs[from..]
    decreases |xs| - from
  {
    if from < |xs| {
      DistinctOfDuplicateFree(xs, from + 1);
      IndexOfSpec(xs, xs[from]);
      assert xs[from..] == [xs[from]] + xs[from + 1..];
    }
  }

  /** De-duplicating the de-duplicated list changes nothing. */
  lemma {:induction false} DistinctIdempotent(xs: seq<string>)
    ensures Distinct(Distinct(xs)) == Distinct(xs)
  {
    DistinctFirstOccurrenceOrder(xs);
    DistinctOfDuplicateFree(Distinct(xs), 0);
  }

  /** `fetchNeighborhoods` / `fetchCuisines`: `false` on fetch failure, else the distinct values. */
  function FetchDistinct(fetched: Option<seq<Restaurant>>, f: Field): (r: Option<seq<string>>)
    ensures r.None? <==> fetched.None?
  {
    match fetched
    case None => None
    case Some(rs) => Some(Distinct(Project(rs, f)))
  }

  /** `DBHelper.fetchNeighborhoods()`: every neighborhood some restaurant is in, once. */
  function FetchNeighborhoods(fetched: Option<seq<Restaurant>>): (r: Option<seq<string>>)
    ensures r.None? <==> fetched.None?
    ensures r.Some? ==> && NoDuplicates(r.value)
                        && forall v :: v in r.value <==> exists x :: x in fetched.value && x.neighborhood == v
  {
    var r := FetchDistinct(fetched, Neighborhood);
    assert r.Some? ==> && NoDuplicates(r.value)
                       && forall v :: v in r.value <==> exists x :: x in fetched.value && x.neighborhood == v
    by {
      if fetched.Some? {
        FetchDistinctSpec(fetched.value, Neighborhood);
      }
    }
    r
  }

  /** `DBHelper.fetchCuisines()`: every cuisine some restaurant serves, once. */
  function FetchCuisines(fetched: Option<seq<Restaurant>>): (r: Option<seq<string>>)
    ensures r.None? <==> fetched.None?
    ensures r.Some? ==> && NoDuplicates(r.value)
                        && forall v :: v in r.value <==> exists x :: x in fetched.value && x.cuisineType == v
  {
    var r := FetchDistinct(fetched, Cuisine);
    assert r.Some? ==> && NoDuplicates(r.value)
                       && forall v :: v in r.value <==> exists x :: x in fetched.value && x.cuisineType == v
    by {
      if fetched.Some? {
        FetchDistinctSpec(fetched.value, Cuisine);
      }
    }
    r
  }

  /**
   * The enumerated values are duplicate-free, hold exactly the values some restaurant
   * carries, and come in order of first occurrence.
   */
  lemma {:induction false} FetchDistinctSpec(rs: seq<Restaurant>, f: Field)
    ensures var out := FetchDistinct(Some(rs), f).value;
      && NoDuplicates(out)
      && (forall v :: v in out <==> exists r :: r in rs && FieldOf(r, f) == v)
      && (forall k, l :: 0 <= k < l < |out| ==> IndexOf(Project(rs, f), out[k]) < IndexOf(Project(rs, f), out[l]))
  {
    var values := Project(rs, f);
    DistinctFirstOccurrenceOrder(values);
    forall v ensures v in Distinct(values) <==> exists r :: r in rs && FieldOf(r, f) == v {
      DistinctMembers(values, v);
      if v in values {
        var i :| 0 <= i < |values| && values[i] == v;
        assert rs[i] in rs;
      }
    }
  }

  // ---------------------------------------------------------------------------
  // URL builders

  const RestaurantPagePrefix := "./restaurant.html?id="

  /** `./restaurant.html?id=${restaurant.id}` */
  function UrlForRestaurant(r: Restaurant): (url: string)
    ensures StartsWith(url, RestaurantPagePrefix)
  {
    RestaurantPagePrefix + IntToDecimal(r.id)
  }

  /** `/img/${restaurant.photograph}.jpg` */
  function JpgUrlForRestaurant(r: Restaurant): (url: string)
    ensures StartsWith(url, "/img/") && EndsWith(url, ".jpg")
  {
    "/img/" + r.photograph + ".jpg"
  }

  /** `/img/${restaurant.photograph}.webp` */
  function WebpUrlForRestaurant(r: Restaurant): (url: string)
    ensures StartsWith(url, "/img/") && EndsWith(url, ".webp")
  {
    "/img/" + r.photograph + ".webp"
  }

  /** `/img/previews/${restaurant.photograph}.jpg` */
  function PreviewUrlForRestaurant(r: Restaurant): (url: string)
    ensures StartsWith(url, "/img/previews/") && EndsWith(url, ".jpg")
  {
    "/img/previews/" + r.photograph + ".jpg"
  }

  /** The three image URLs of a restaurant are pairwise distinct and determined by its photograph. */
  lemma {:induction false} ImageUrlsDistinct(r: Restaurant, s: Restaurant)
    ensures JpgUrlForRestaurant(r) != WebpUrlForRestaurant(r)
    ensures JpgUrlForRestaurant(r) != PreviewUrlForRestaurant(r)
    ensures WebpUrlForRestaurant(r) != PreviewUrlForRestaurant(r)
    ensures JpgUrlForRestaurant(r) == JpgUrlForRestaurant(s) <==> r.photograph == s.photograph
  {
    var j := JpgUrlForRestaurant(r);
    var w := WebpUrlForRestaurant(r);
    assert j[|j| - 1] == 'g' && w[|w| - 1] == 'p';
    var p := PreviewUrlForRestaurant(r);
    assert |p| == |j| + 9 && p[|p| - 1] == 'g';
    if JpgUrlForRestaurant(r) == JpgUrlForRestaurant(s) {
      var js := JpgUrlForRestaurant(s);
      assert r.photograph == j[5..|j| - 4];
      assert s.photograph == js[5..|js| - 4];
    }
  }
}
