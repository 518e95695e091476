/** A stable sort by a natural-number key, on a list whose entries carry
    their key beside the item, the way Python's `sorted(xs, key=f)` pairs
    every item with `f(item)` before it sorts. */
module KeySort {

  datatype Keyed<T> = Keyed(key: nat, item: T)

  /** Keys never decrease along `s`. */
  predicate Sorted<T>(s: seq<Keyed<T>>) {
    forall i, j :: 0 <= i < j < |s| ==> s[i].key <= s[j].key
  }

  /** The entries of `s` with key `k`, in their order in `s`. */
  function OfKey<T>(s: seq<Keyed<T>>, k: nat): seq<Keyed<T>> {
    if s == [] then []
    else (if s[0].key == k then [s[0]] else []) + OfKey(s[1..], k)
  }

  /** The items without their keys. */
  function Items<T>(s: seq<Keyed<T>>): (r: seq<T>)
    ensures |r| == |s|
  {
    if s == [] then [] else [s[0].item] + Items(s[1..])
  }

  /** Inserts `x` into sorted `s` before the first entry of equal or greater
      key, so `x` stays ahead of the entries it preceded. */
  function Insert<T>(x: Keyed<T>, s: seq<Keyed<T>>): (r: seq<Keyed<T>>)
    requires Sorted(s)
    ensures Sorted(r)
    ensures multiset(r) == multiset(s) + multiset{x} && |r| == |s| + 1
    ensures r[0] == (if s == [] || x.key <= s[0].key then x else s[0])
  {
    if s == [] || x.key <= s[0].key then [x] + s
    else
      var rest := Insert(x, s[1..]);
      assert s == [s[0]] + s[1..];
      assert s[0].key <= rest[0].key;
      [s[0]] + rest
  }

  /** An insertion sort by key. */
  function SortByKey<T>(s: seq<Keyed<T>>): (r: seq<Keyed<T>>)
    ensures Sorted(r)
    ensures multiset(r) == multiset(s) && |r| == |s|
  {
    if s == [] then []
    else
      assert s == [s[0]] + s[1..];
      Insert(s[0], SortByKey(s[1..]))
  }

  lemma OfKeyCons<T>(y: Keyed<T>, t: seq<Keyed<T>>, k: nat)
    ensures OfKey([y] + t, k) == (if y.key == k then [y] else []) + OfKey(t, k)
  {
    assert ([y] + t)[1..] == t;
  }

  /** Inserting `x` puts it ahead of every entry with its key and leaves the
      entries of other keys in their order. */
  lemma {:induction false} InsertOfKey<T>(x: Keyed<T>, s: seq<Keyed<T>>, k: nat)
    requires Sorted(s)
    ensures OfKey(Insert(x, s), k) == (if x.key == k then [x] else []) + OfKey(s, k)
  {
    if s == [] || x.key <= s[0].key {
      OfKeyCons(x, s, k);
    } else {
      var rest := Insert(x, s[1..]);
      assert Insert(x, s) == [s[0]] + rest;
      assert Sorted(s[1..]);
      InsertOfKey(x, s[1..], k);
      OfKeyCons(s[0], rest, k);
      OfKeyCons(s[0], s[1..], k);
      assert s == [s[0]] + s[1..];
      if x.key == k {
        assert s[0].key != k;
      }
    }
  }

  /** Stability: for every key, the sorted list holds the entries with that
      key in their original order. */
  lemma {:induction false} SortIsStable<T>(s: seq<Keyed<T>>, k: nat)
    ensures OfKey(SortByKey(s), k) == OfKey(s, k)
  {
    if s != [] {
      SortIsStable(s[1..], k);
      InsertOfKey(s[0], SortByKey(s[1..]), k);
    }
  }

  /** The position of the first entry of the least key. */
  function FirstLeast<T>(s: seq<Keyed<T>>): (i: nat)
    requires s != []
    ensures i < |s|
    ensures forall j :: 0 <= j < |s| ==> s[i].key <= s[j].key
    ensures forall j :: 0 <= j < i ==> s[i].key < s[j].key
  {
    if |s| == 1 then 0
    else
      var k := FirstLeast(s[1..]) + 1;
      assert forall j :: 1 <= j < |s| ==> s[j] == s[1..][j - 1];
      if s[0].key <= s[k].key then 0 else k
  }

  /** The head of the sorted list is the first entry of the least key. */
  lemma {:induction false} SortHeadIsFirstLeast<T>(s: seq<Keyed<T>>)
    requires s != []
    ensures SortByKey(s)[0] == s[FirstLeast(s)]
  {
    if |s| > 1 {
      SortHeadIsFirstLeast(s[1..]);
    }
  }

  /** Inserting adds exactly the inserted item. */
  lemma {:induction false} InsertItems<T>(x: Keyed<T>, s: seq<Keyed<T>>)
    requires Sorted(s)
    ensures multiset(Items(Insert(x, s))) == multiset(Items(s)) + multiset{x.item}
  {
    if s == [] || x.key <= s[0].key {
      ItemsCons(x, s);
    } else {
      var rest := Insert(x, s[1..]);
      InsertItems(x, s[1..]);
      ItemsCons(s[0], rest);
      ItemsCons(s[0], s[1..]);
      assert s == [s[0]] + s[1..];
      assert multiset(Items(Insert(x, s))) == multiset{s[0].item} + multiset(Items(rest));
    }
  }

  lemma {:induction false} ItemsAt<T>(s: seq<Keyed<T>>, i: nat)
    requires i < |s|
    ensures Items(s)[i] == s[i].item
  {
    if i > 0 {
      ItemsAt(s[1..], i - 1);
    }
  }

  lemma ItemsCons<T>(y: Keyed<T>, t: seq<Keyed<T>>)
    ensures Items([y] + t) == [y.item] + Items(t)
  {
    assert ([y] + t)[1..] == t;
  }

  /** Sorting keeps the items, with their multiplicities. */
  lemma {:induction false} SortKeepsItems<T>(s: seq<Keyed<T>>)
    ensures multiset(Items(SortByKey(s))) == multiset(Items(s))
  {
    if s != [] {
      var sorted := SortByKey(s[1..]);
      assert SortByKey(s) == Insert(s[0], sorted);
      SortKeepsItems(s[1..]);
      InsertItems(s[0], sorted);
      assert Items(s) == [s[0].item] + Items(s[1..]);
    }
  }
}
