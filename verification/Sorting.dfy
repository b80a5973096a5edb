/** The stable sort of JavaScript arrays, by a number each element carries, the largest first: it orders
    by that number, keeps exactly the elements it was given, and leaves those with the same number in
    their order. */
module Sorting {
  datatype Keyed<+T> = Keyed(key: int, item: T)

  ghost predicate Descending<T>(s: seq<Keyed<T>>) {
    forall i, j :: 0 <= i < j < |s| ==> s[i].key >= s[j].key
  }

  function Insert<T>(x: Keyed<T>, s: seq<Keyed<T>>): seq<Keyed<T>> {
    if s == [] || x.key >= s[0].key then [x] + s else [s[0]] + Insert(x, s[1..])
  }

  function Sort<T>(s: seq<Keyed<T>>): seq<Keyed<T>> {
    if s == [] then [] else Insert(s[0], Sort(s[1..]))
  }

  lemma {:induction false} InsertKeeps<T>(x: Keyed<T>, s: seq<Keyed<T>>)
    ensures multiset(Insert(x, s)) == multiset{x} + multiset(s)
  {
    if s != [] && x.key < s[0].key {
      InsertKeeps(x, s[1..]);
      assert s == [s[0]] + s[1..];
    }
  }

  lemma {:induction false} InsertOrders<T>(x: Keyed<T>, s: seq<Keyed<T>>)
    requires Descending(s)
    ensures Descending(Insert(x, s))
  {
    if s != [] && x.key < s[0].key {
      InsertOrders(x, s[1..]);
      var rest := Insert(x, s[1..]);
      InsertKeeps(x, s[1..]);
      forall j | 0 <= j < |rest| ensures s[0].key >= rest[j].key {
        assert rest[j] in multiset(rest);
      }
    }
  }

  /** The sort orders by key and keeps exactly the elements it was given, each as often. */
  lemma {:induction false} SortOrders<T>(s: seq<Keyed<T>>)
    ensures Descending(Sort(s)) && multiset(Sort(s)) == multiset(s) && |Sort(s)| == |s|
    ensures forall x :: x in Sort(s) <==> x in s
  {
    if s != [] {
      SortOrders(s[1..]);
      InsertOrders(s[0], Sort(s[1..]));
      InsertKeeps(s[0], Sort(s[1..]));
      assert s == [s[0]] + s[1..];
    }
    assert |multiset(Sort(s))| == |Sort(s)| && |multiset(s)| == |s|;
    forall x ensures x in Sort(s) <==> x in s {
      assert x in Sort(s) <==> x in multiset(Sort(s));
      assert x in s <==> x in multiset(s);
    }
  }

  /** The elements with one key, in their order. */
  function WithKey<T>(s: seq<Keyed<T>>, key: int): seq<Keyed<T>> {
    if s == [] then []
    else if s[0].key == key then [s[0]] + WithKey(s[1..], key)
    else WithKey(s[1..], key)
  }

  lemma {:induction false} InsertIsStable<T>(x: Keyed<T>, s: seq<Keyed<T>>, key: int)
    ensures WithKey(Insert(x, s), key) == (if x.key == key then [x] else []) + WithKey(s, key)
  {
    if s != [] && x.key < s[0].key { InsertIsStable(x, s[1..], key); }
  }

  /** The sort is stable: elements with one key stay in their order. */
  lemma {:induction false} SortIsStable<T>(s: seq<Keyed<T>>, key: int)
    ensures WithKey(Sort(s), key) == WithKey(s, key)
  {
    if s != [] {
      SortIsStable(s[1..], key);
      InsertIsStable(s[0], Sort(s[1..]), key);
    }
  }
}
