/** A stable sort by a number: what a sort with a key does to a list. */
module StableSort {

  /** Behind everything smaller, before everything that is not. */
  function Placed<T>(x: T, sorted: seq<T>, key: T -> int): seq<T> {
    if sorted == [] || key(x) <= key(sorted[0]) then [x] + sorted
    else [sorted[0]] + Placed(x, sorted[1..], key)
  }

  function By<T>(items: seq<T>, key: T -> int): seq<T> {
    if items == [] then [] else Placed(items[0], By(items[1..], key), key)
  }

  ghost predicate Sorted<T>(items: seq<T>, key: T -> int) {
    forall i, j :: 0 <= i < j < |items| ==> key(items[i]) <= key(items[j])
  }

  /** The items of one key, in the order they stand. */
  function Of<T>(items: seq<T>, key: T -> int, k: int): seq<T> {
    if items == [] then []
    else (if key(items[0]) == k then [items[0]] else []) + Of(items[1..], key, k)
  }

  lemma OfCons<T>(x: T, rest: seq<T>, key: T -> int, k: int)
    ensures Of([x] + rest, key, k) == (if key(x) == k then [x] else []) + Of(rest, key, k)
  {
    assert ([x] + rest)[1..] == rest;
  }

  lemma {:induction false} PlacedAdds<T>(x: T, sorted: seq<T>, key: T -> int)
    ensures multiset(Placed(x, sorted, key)) == multiset{x} + multiset(sorted)
  {
    if sorted != [] && key(x) > key(sorted[0]) {
      var head, tail := sorted[0], sorted[1..];
      PlacedAdds(x, tail, key);
      assert sorted == [head] + tail;
      assert Placed(x, sorted, key) == [head] + Placed(x, tail, key);
    }
  }

  lemma {:induction false} PlacedKeepsOrder<T>(x: T, sorted: seq<T>, key: T -> int)
    requires Sorted(sorted, key)
    ensures Sorted(Placed(x, sorted, key), key)
  {
    if sorted != [] && key(x) > key(sorted[0]) {
      var head, rest := sorted[0], Placed(x, sorted[1..], key);
      PlacedKeepsOrder(x, sorted[1..], key);
      PlacedAdds(x, sorted[1..], key);
      forall i | 0 <= i < |rest| ensures key(head) <= key(rest[i]) {
        assert rest[i] in multiset(rest);
        assert rest[i] == x || rest[i] in multiset(sorted[1..]);
      }
    }
  }

  lemma {:induction false} PlacedIsFirstOfItsKey<T>(x: T, sorted: seq<T>, key: T -> int, k: int)
    ensures Of(Placed(x, sorted, key), key, k) == (if key(x) == k then [x] else []) + Of(sorted, key, k)
  {
    OfCons(x, sorted, key, k);
    if sorted != [] && key(x) > key(sorted[0]) {
      PlacedIsFirstOfItsKey(x, sorted[1..], key, k);
      OfCons(sorted[0], Placed(x, sorted[1..], key), key, k);
    }
  }

  /** The same items in order of the key, and those of one key in the order they had. */
  lemma {:induction false} ByIsStable<T>(items: seq<T>, key: T -> int)
    ensures Sorted(By(items, key), key)
    ensures multiset(By(items, key)) == multiset(items)
    ensures forall k :: Of(By(items, key), key, k) == Of(items, key, k)
  {
    if items != [] {
      var head, rest := items[0], By(items[1..], key);
      ByIsStable(items[1..], key);
      PlacedKeepsOrder(head, rest, key);
      PlacedAdds(head, rest, key);
      assert items == [head] + items[1..];
      forall k ensures Of(By(items, key), key, k) == Of(items, key, k) {
        PlacedIsFirstOfItsKey(head, rest, key, k);
      }
    }
  }
}
