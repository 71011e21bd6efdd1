/** Sorting by a key. */
module Sorting {
  predicate Ordered<T>(v: seq<T>, key: T -> int) {
    forall i, j | 0 <= i < j < |v| :: key(v[i]) <= key(v[j])
  }

  function InsertAt<T>(v: seq<T>, j: nat, x: T): seq<T>
    requires j <= |v|
  {
    v[..j] + [x] + v[j..]
  }

  /** Sort by the key: the same elements, in ascending order. */
  method SortBy<T(==)>(items: seq<T>, key: T -> int) returns (out: seq<T>)
    ensures Ordered(out, key) && multiset(out) == multiset(items)
  {
    hide Ordered, InsertAt;
    out := [];
    OrderedNone(key);
    var i := 0;
    while i < |items|
      invariant 0 <= i <= |items|
      invariant Ordered(out, key) && multiset(out) == multiset(items[..i])
    {
      var j := 0;
      while j < |out| && key(out[j]) <= key(items[i])
        invariant 0 <= j <= |out|
        invariant forall k | 0 <= k < j :: key(out[k]) <= key(items[i])
      {
        j := j + 1;
      }
      Inserted(out, j, items[i], key);
      BagPush(items, i);
      out := InsertAt(out, j, items[i]);
      i := i + 1;
    }
    assert items[..i] == items;
  }

  lemma OrderedNone<T>(key: T -> int)
    ensures Ordered([], key)
  {
  }

  lemma BagPush<T>(s: seq<T>, i: nat)
    requires i < |s|
    ensures multiset(s[..i + 1]) == multiset(s[..i]) + multiset{s[i]}
  {
    assert s[..i + 1] == s[..i] + [s[i]];
  }

  lemma Inserted<T>(v: seq<T>, j: nat, x: T, key: T -> int)
    requires Ordered(v, key) && j <= |v|
    requires forall k | 0 <= k < j :: key(v[k]) <= key(x)
    requires j < |v| ==> key(v[j]) > key(x)
    ensures Ordered(InsertAt(v, j, x), key) && multiset(InsertAt(v, j, x)) == multiset(v) + multiset{x}
  {
    assert v == v[..j] + v[j..];
  }
}
