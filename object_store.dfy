/**
 * The IndexedDB object stores the pages write (`rest-reviews` database,
 * public/js/dbhelper.js): a keyed `put` replaces the record under the key its
 * key path names, and `getAll` lists the records in ascending key order.
 */
module ObjectStore {
  import opened Wrappers
  import opened DBHelper

  /**
   * `xs.forEach(x => store.put(x))` on a store whose key path gives `key(x)`:
   * the puts run in list order, so a later record replaces an earlier one with
   * the same key.
   */
  function PutAll<K, T>(store: map<K, T>, xs: seq<T>, key: T -> K): (r: map<K, T>)
    ensures r.Keys == store.Keys + set i | 0 <= i < |xs| :: key(xs[i])
    decreases |xs|
  {
    if xs == [] then store
    else
      var last := xs[|xs| - 1];
      var r := PutAll(store, xs[..|xs| - 1], key)[key(last) := last];
      assert r.Keys == store.Keys + set i | 0 <= i < |xs| :: key(xs[i]) by {
        var front := xs[..|xs| - 1];
        assert forall i :: 0 <= i < |front| ==> front[i] == xs[i];
      }
      r
  }

  /** Putting one more record of the list is one more map update. */
  lemma PutAllStep<K, T>(store: map<K, T>, xs: seq<T>, i: nat, key: T -> K)
    requires i < |xs|
    ensures PutAll(store, xs[..i + 1], key) == PutAll(store, xs[..i], key)[key(xs[i]) := xs[i]]
  {
    assert xs[..i + 1][..i] == xs[..i];
  }

  /** Each key put ends up holding the LAST record put under it. */
  lemma {:induction false} PutAllLastWins<K, T>(store: map<K, T>, xs: seq<T>, key: T -> K, i: nat)
    requires i < |xs|
    requires forall j :: i < j < |xs| ==> key(xs[j]) != key(xs[i])
    ensures key(xs[i]) in PutAll(store, xs, key) && PutAll(store, xs, key)[key(xs[i])] == xs[i]
    decreases |xs|
  {
    if i < |xs| - 1 {
      var front := xs[..|xs| - 1];
      assert front[i] == xs[i];
      PutAllLastWins(store, front, key, i);
    }
  }

  /** Keys that no put names keep their old record. */
  lemma {:induction false} PutAllUntouched<K, T>(store: map<K, T>, xs: seq<T>, key: T -> K, k: K)
    requires k in store
    requires forall j :: 0 <= j < |xs| ==> key(xs[j]) != k
    ensures k in PutAll(store, xs, key) && PutAll(store, xs, key)[k] == store[k]
    decreases |xs|
  {
    if xs != [] {
      var front := xs[..|xs| - 1];
      assert forall j :: 0 <= j < |front| ==> front[j] == xs[j];
      PutAllUntouched(store, front, key, k);
    }
  }

  /** Putting two lists one after the other is putting their concatenation. */
  lemma {:induction false} PutAllAppend<K, T>(store: map<K, T>, xs: seq<T>, ys: seq<T>, key: T -> K)
    ensures PutAll(PutAll(store, xs, key), ys, key) == PutAll(store, xs + ys, key)
    decreases |ys|
  {
    if ys == [] {
      assert xs + ys == xs;
    } else {
      var front := ys[..|ys| - 1];
      assert (xs + ys)[..|xs + ys| - 1] == xs + front;
      assert (xs + ys)[|xs + ys| - 1] == ys[|ys| - 1];
      PutAllAppend(store, xs, front, key);
    }
  }

  /** Putting the same list twice leaves the store as putting it once. */
  lemma {:induction false} PutAllTwice<K, T>(store: map<K, T>, xs: seq<T>, key: T -> K)
    ensures PutAll(PutAll(store, xs, key), xs, key) == PutAll(store, xs, key)
  {
    var once := PutAll(store, xs, key);
    var twice := PutAll(once, xs, key);
    assert twice.Keys == once.Keys;
    forall k | k in twice ensures twice[k] == once[k] {
      var j := LastIndexOf(xs, key, k);
      if j < 0 {
        PutAllUntouched(once, xs, key, k);
      } else {
        PutAllLastWins(store, xs, key, j);
        PutAllLastWins(once, xs, key, j);
      }
    }
  }

  /** The position of the last record with key `k`, or -1. */
  function LastIndexOf<K(==), T>(xs: seq<T>, key: T -> K, k: K): (j: int)
    ensures -1 <= j < |xs|
    ensures j == -1 ==> forall i :: 0 <= i < |xs| ==> key(xs[i]) != k
    ensures 0 <= j ==> key(xs[j]) == k && forall i :: j < i < |xs| ==> key(xs[i]) != k
    decreases |xs|
  {
    if xs == [] then -1
    else if key(xs[|xs| - 1]) == k then |xs| - 1
    else LastIndexOf(xs[..|xs| - 1], key, k)
  }

  function RestaurantKey(r: Restaurant): int { r.id }

  function ReviewKey(r: Review): Option<int> { r.id }

  /** The `restaurants` store has key path `id`: every record sits under its own id. */
  predicate KeyedById(store: map<int, Restaurant>) {
    forall k :: k in store ==> store[k].id == k
  }

  /** Putting restaurants keeps every record under its own id. */
  lemma {:induction false} PutAllKeepsKeyedById(store: map<int, Restaurant>, rs: seq<Restaurant>)
    requires KeyedById(store)
    ensures KeyedById(PutAll(store, rs, RestaurantKey))
    decreases |rs|
  {
    if rs != [] {
      PutAllKeepsKeyedById(store, rs[..|rs| - 1]);
    }
  }

  // store.getAll(): every record, in ascending key order

  /** A set with no members is empty (set extensionality). */
  lemma {:induction false} EmptyWithoutMembers(s: set<int>)
    requires forall k :: k !in s
    ensures s == {}
  {
    assert forall k :: k in s <==> k in {};
  }

  lemma {:induction false} HasMember(s: set<int>)
    requires s != {}
    ensures exists k :: k in s
  {
    if forall k :: k !in s {
      EmptyWithoutMembers(s);
    }
  }

  /** The least key of a non-empty key set. */
  ghost function MinKey(s: set<int>): (m: int)
    requires s != {}
    ensures m in s && forall y :: y in s ==> m <= y
  {
    HasMember(s);
    var k :| k in s;
    if s == {k} then k
    else
      var rest := MinKey(s - {k});
      assert forall y :: y in s ==> y == k || y in s - {k};
      if k < rest then k else rest
  }

  /** The keys of a store in ascending order. */
  ghost function SortedKeys(s: set<int>): (ks: seq<int>)
    ensures forall i :: 0 <= i < |ks| ==> ks[i] in s
    decreases s
  {
    if s == {} then []
    else
      var m := MinKey(s);
      var rest := SortedKeys(s - {m});
      [m] + rest
  }

  /** The sorted keys hold each key once... */
  lemma {:induction false} SortedKeysLength(s: set<int>)
    ensures |SortedKeys(s)| == |s|
    decreases s
  {
    if s != {} {
      SortedKeysLength(s - {MinKey(s)});
    }
  }

  /** ...miss none of them... */
  lemma {:induction false} SortedKeysComplete(s: set<int>)
    ensures forall k :: k in s ==> k in SortedKeys(s)
    decreases s
  {
    if s != {} {
      var m := MinKey(s);
      SortedKeysComplete(s - {m});
      forall k | k in s ensures k in SortedKeys(s) {
        if k != m {
          assert k in s - {m};
        }
      }
    }
  }

  /** ...and list them in strictly ascending order. */
  lemma {:induction false} SortedKeysIncreasing(s: set<int>)
    ensures Increasing(SortedKeys(s))
    decreases s
  {
    if s != {} {
      var m := MinKey(s);
      var rest := SortedKeys(s - {m});
      SortedKeysIncreasing(s - {m});
      forall i | 0 <= i < |rest| ensures m < rest[i] {
        assert rest[i] in s - {m};
      }
      IncreasingCons(m, rest);
    }
  }

  /** The records under the given keys, in that order. */
  ghost function RecordsAt(store: map<int, Restaurant>, ks: seq<int>): (rs: seq<Restaurant>)
    requires forall i :: 0 <= i < |ks| ==> ks[i] in store
    ensures |rs| == |ks| && forall i :: 0 <= i < |ks| ==> rs[i] == store[ks[i]]
  {
    if ks == [] then [] else [store[ks[0]]] + RecordsAt(store, ks[1..])
  }

  /** What `store.getAll()` resolves to: one record per key... */
  ghost function GetAll(store: map<int, Restaurant>): (all: seq<Restaurant>)
    ensures |all| == |store|
  {
    SortedKeysLength(store.Keys);
    assert |store.Keys| == |store|;
    RecordsAt(store, SortedKeys(store.Keys))
  }

  /** ...every stored record and nothing else... */
  lemma GetAllMembers(store: map<int, Restaurant>)
    ensures forall r :: r in GetAll(store) <==> r in store.Values
  {
    var ks := SortedKeys(store.Keys);
    SortedKeysComplete(store.Keys);
    var all := GetAll(store);
    forall r | r in store.Values ensures r in all {
      var k :| k in store && store[k] == r;
      var i :| 0 <= i < |ks| && ks[i] == k;
      assert all[i] == r;
    }
  }

  /** ...ordered by id, since each record sits under its own id. */
  lemma GetAllOrderedById(store: map<int, Restaurant>)
    requires KeyedById(store)
    ensures forall i, j :: 0 <= i < j < |GetAll(store)| ==> GetAll(store)[i].id < GetAll(store)[j].id
  {
    SortedKeysIncreasing(store.Keys);
  }

  /** The records in key order start with the record under the least key. */
  lemma {:induction false} RecordsFromMinKey(store: map<int, Restaurant>, keys: set<int>)
    requires keys != {} && keys <= store.Keys
    ensures RecordsAt(store, SortedKeys(keys))
         == [store[MinKey(keys)]] + RecordsAt(store, SortedKeys(keys - {MinKey(keys)}))
  {
    var ks := SortedKeys(keys);
    assert ks == [MinKey(keys)] + SortedKeys(keys - {MinKey(keys)});
    assert ks[1..] == SortedKeys(keys - {MinKey(keys)});
  }

  /** Reading the least remaining key extends the records read so far by its record. */
  lemma {:induction false} ReadLeastKey(store: map<int, Restaurant>, keys: set<int>, k: int, read: seq<Restaurant>)
    requires keys <= store.Keys && k in keys && forall x :: x in keys ==> k <= x
    requires read + RecordsAt(store, SortedKeys(keys)) == GetAll(store)
    ensures (read + [store[k]]) + RecordsAt(store, SortedKeys(keys - {k})) == GetAll(store)
  {
    assert k == MinKey(keys) by {
      assert k <= MinKey(keys) && MinKey(keys) <= k;
    }
    RecordsFromMinKey(store, keys);
    var rest := RecordsAt(store, SortedKeys(keys - {k}));
    assert read + ([store[k]] + rest) == (read + [store[k]]) + rest;
  }

  lemma {:induction false} MinKeyExists(s: set<int>)
    requires s != {}
    ensures exists k :: k in s && forall x :: x in s ==> k <= x
  {
    var m := MinKey(s);
    assert m in s;
  }

}
