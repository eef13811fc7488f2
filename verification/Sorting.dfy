/** Stable sorting by an integer key, as the source's array sort does it. */
module Sorting {
  /** Puts x behind everything whose key is not larger. */
  function InsertBy<T(!new)>(x: T, s: seq<T>, key: T -> int): (r: seq<T>)
    ensures multiset(r) == multiset(s) + multiset{x}
    ensures |r| == |s| + 1
  {
    if s == [] || key(s[|s| - 1]) <= key(x) then s + [x]
    else
      assert s == s[..|s| - 1] + [s[|s| - 1]];
      InsertBy(x, s[..|s| - 1], key) + [s[|s| - 1]]
  }

  function SortBy<T(!new)>(s: seq<T>, key: T -> int): (r: seq<T>)
    ensures multiset(r) == multiset(s)
    ensures |r| == |s|
  {
    if s == [] then []
    else
      assert s == s[..|s| - 1] + [s[|s| - 1]];
      InsertBy(s[|s| - 1], SortBy(s[..|s| - 1], key), key)
  }

  /** Sorted by key, and elements with equal keys stand in the relation `inOrder`. */
  ghost predicate Ordered<T(!new)>(s: seq<T>, key: T -> int, inOrder: (T, T) -> bool) {
    forall i, j :: 0 <= i < j < |s| ==> key(s[i]) < key(s[j]) || (key(s[i]) == key(s[j]) && inOrder(s[i], s[j]))
  }

  ghost predicate Pairwise<T(!new)>(s: seq<T>, inOrder: (T, T) -> bool) {
    forall i, j :: 0 <= i < j < |s| ==> inOrder(s[i], s[j])
  }

  lemma SameMembers<T(!new)>(s: seq<T>, key: T -> int)
    ensures forall x :: x in SortBy(s, key) <==> x in s
  {
    assert forall x :: x in SortBy(s, key) <==> x in multiset(SortBy(s, key));
  }

  lemma {:induction false} InsertKeepsOrder<T(!new)>(x: T, s: seq<T>, key: T -> int, inOrder: (T, T) -> bool)
    requires Ordered(s, key, inOrder) && forall y <- s :: inOrder(y, x)
    ensures Ordered(InsertBy(x, s, key), key, inOrder)
  {
    if s != [] && key(s[|s| - 1]) > key(x) {
      var init, last := s[..|s| - 1], s[|s| - 1];
      InsertKeepsOrder(x, init, key, inOrder);
      var r := InsertBy(x, init, key);
      forall i | 0 <= i < |r|
        ensures key(r[i]) < key(last) || (key(r[i]) == key(last) && inOrder(r[i], last))
      {
        assert r[i] in multiset(r);
        assert r[i] == x || r[i] in init;
      }
    }
  }

  /** Sorting by a key keeps the given order of elements with equal keys. */
  lemma {:induction false} SortIsStable<T(!new)>(s: seq<T>, key: T -> int, inOrder: (T, T) -> bool)
    requires Pairwise(s, inOrder)
    ensures Ordered(SortBy(s, key), key, inOrder)
  {
    if s != [] {
      var init := s[..|s| - 1];
      SortIsStable(init, key, inOrder);
      SameMembers(init, key);
      InsertKeepsOrder(s[|s| - 1], SortBy(init, key), key, inOrder);
    }
  }
}
