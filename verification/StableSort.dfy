/** Sorting by insertion: the result is in order of keys, and entries of equal keys keep the order they had. */
module StableSort {
  function Insert<T>(sorted: seq<T>, x: T, key: T -> int): seq<T> {
    if sorted == [] then [x]
    else if key(x) < key(sorted[0]) then [x] + sorted
    else [sorted[0]] + Insert(sorted[1..], x, key)
  }

  function Sort<T>(xs: seq<T>, key: T -> int): seq<T> {
    if xs == [] then [] else Insert(Sort(xs[..|xs| - 1], key), xs[|xs| - 1], key)
  }

  /** The entries of one key, in the order of the list. */
  function OfKey<T>(xs: seq<T>, key: T -> int, k: int): seq<T> {
    if xs == [] then []
    else
      var init, last := OfKey(xs[..|xs| - 1], key, k), xs[|xs| - 1];
      if key(last) == k then init + [last] else init
  }

  ghost predicate InOrder<T>(xs: seq<T>, key: T -> int) {
    forall i, j :: 0 <= i < j < |xs| ==> key(xs[i]) <= key(xs[j])
  }

  lemma {:induction false} OfKeyAppend<T>(xs: seq<T>, ys: seq<T>, key: T -> int, k: int)
    ensures OfKey(xs + ys, key, k) == OfKey(xs, key, k) + OfKey(ys, key, k)
    decreases |ys|
  {
    if ys == [] {
      assert xs + ys == xs;
    } else {
      var init := ys[..|ys| - 1];
      OfKeyAppend(xs, init, key, k);
      assert (xs + ys)[..|xs + ys| - 1] == xs + init;
    }
  }

  lemma OfKeyOne<T>(x: T, key: T -> int, k: int)
    ensures OfKey([x], key, k) == if key(x) == k then [x] else []
  {
    assert [x][..0] == [];
  }

  lemma {:induction false} NoneOfKey<T>(xs: seq<T>, key: T -> int, k: int)
    requires forall i :: 0 <= i < |xs| ==> key(xs[i]) != k
    ensures OfKey(xs, key, k) == []
  {
    if xs != [] { NoneOfKey(xs[..|xs| - 1], key, k); }
  }

  lemma {:induction false} InsertIsBetween<T>(sorted: seq<T>, x: T, key: T -> int) returns (n: nat)
    requires InOrder(sorted, key)
    ensures n <= |sorted| && Insert(sorted, x, key) == sorted[..n] + [x] + sorted[n..]
    ensures (forall i :: 0 <= i < n ==> key(sorted[i]) <= key(x))
    ensures forall i :: n <= i < |sorted| ==> key(x) < key(sorted[i])
  {
    if sorted == [] || key(x) < key(sorted[0]) {
      n := 0;
    } else {
      var m := InsertIsBetween(sorted[1..], x, key);
      n := m + 1;
      assert sorted[..n] == [sorted[0]] + sorted[1..][..m] && sorted[n..] == sorted[1..][m..];
      assert forall i :: 1 <= i < |sorted| ==> sorted[i] == sorted[1..][i - 1];
    }
  }

  lemma OfKeyBetween<T>(xs: seq<T>, x: T, ys: seq<T>, key: T -> int, k: int)
    requires key(x) == k ==> OfKey(ys, key, k) == []
    ensures OfKey(xs + [x] + ys, key, k) == OfKey(xs + ys, key, k) + if key(x) == k then [x] else []
  {
    OfKeyAppend(xs + [x], ys, key, k);
    OfKeyAppend(xs, [x], key, k);
    OfKeyOne(x, key, k);
    OfKeyAppend(xs, ys, key, k);
  }

  lemma InsertOfKey<T>(sorted: seq<T>, x: T, key: T -> int, k: int)
    requires InOrder(sorted, key)
    ensures OfKey(Insert(sorted, x, key), key, k) == OfKey(sorted, key, k) + if key(x) == k then [x] else []
  {
    var n := InsertIsBetween(sorted, x, key);
    if key(x) == k { NoneOfKey(sorted[n..], key, k); }
    OfKeyBetween(sorted[..n], x, sorted[n..], key, k);
    assert sorted[..n] + sorted[n..] == sorted;
  }

  lemma BetweenInOrder<T>(sorted: seq<T>, x: T, n: nat, key: T -> int)
    requires InOrder(sorted, key) && n <= |sorted|
    requires (forall i :: 0 <= i < n ==> key(sorted[i]) <= key(x))
    requires forall i :: n <= i < |sorted| ==> key(x) < key(sorted[i])
    ensures InOrder(sorted[..n] + [x] + sorted[n..], key)
  {
  }

  lemma InsertInOrder<T>(sorted: seq<T>, x: T, key: T -> int)
    requires InOrder(sorted, key)
    ensures InOrder(Insert(sorted, x, key), key)
  {
    var n := InsertIsBetween(sorted, x, key);
    BetweenInOrder(sorted, x, n, key);
  }

  /** The two laws that determine the sorted list. */
  lemma {:induction false} SortFacts<T>(xs: seq<T>, key: T -> int, k: int)
    ensures InOrder(Sort(xs, key), key) && OfKey(Sort(xs, key), key, k) == OfKey(xs, key, k)
  {
    if xs != [] {
      SortFacts(xs[..|xs| - 1], key, k);
      InsertInOrder(Sort(xs[..|xs| - 1], key), xs[|xs| - 1], key);
      InsertOfKey(Sort(xs[..|xs| - 1], key), xs[|xs| - 1], key, k);
    }
  }
}
