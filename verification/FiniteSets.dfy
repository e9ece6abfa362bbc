/**
 Minimum, maximum and cardinality of finite sets of row ids: the facts about MIN, MAX and COUNT that the
 aggregate queries rely on.
 */
module FiniteSets {
  import opened Wrappers

  lemma Member<T>(s: set<T>) returns (x: T)
    requires s != {}
    ensures x in s
  {
    x :| x in s;
  }

  /** Some member of a set. */
  method Pick<T(==)>(s: set<T>) returns (x: T)
    requires s != {}
    ensures x in s
  {
    x :| x in s;
  }

  /** A key under which a map holds a value. */
  lemma KeyOf<K, V>(m: map<K, V>, v: V) returns (k: K)
    requires v in m.Values
    ensures k in m && m[k] == v
  {
    k :| k in m && m[k] == v;
  }

  lemma MinExists(s: set<int>)
    requires s != {}
    ensures exists m :: m in s && forall x :: x in s ==> m <= x
  {
    var a := Member(s);
    if s - {a} == {} {
      assert s == {a};
    } else {
      MinExists(s - {a});
      var m :| m in s - {a} && forall x :: x in s - {a} ==> m <= x;
      var w := if a < m then a else m;
      forall x | x in s ensures w <= x {
        assert x == a || x in s - {a};
      }
    }
  }

  lemma MaxExists(s: set<int>)
    requires s != {}
    ensures exists m :: m in s && forall x :: x in s ==> x <= m
  {
    var a := Member(s);
    if s - {a} == {} {
      assert s == {a};
    } else {
      MaxExists(s - {a});
      var m :| m in s - {a} && forall x :: x in s - {a} ==> x <= m;
      var w := if a < m then m else a;
      forall x | x in s ensures x <= w {
        assert x == a || x in s - {a};
      }
    }
  }

  /** The least element. */
  function Min(s: set<int>): (m: int)
    requires s != {}
    ensures m in s && forall x :: x in s ==> m <= x
  {
    MinExists(s);
    var m :| m in s && forall x :: x in s ==> m <= x;
    m
  }

  /** The greatest element. */
  function Max(s: set<int>): (m: int)
    requires s != {}
    ensures m in s && forall x :: x in s ==> x <= m
  {
    MaxExists(s);
    var m :| m in s && forall x :: x in s ==> x <= m;
    m
  }

  lemma MaxUnion(a: set<int>, b: set<int>)
    ensures a == {} ==> a + b == b
    ensures b == {} ==> a + b == a
    ensures a != {} && b != {} ==> a + b != {} && Max(a + b) == if Max(a) >= Max(b) then Max(a) else Max(b)
  {
    if a != {} && b != {} {
      assert Max(a) in a + b && Max(b) in a + b;
    }
  }

  /** A subset with as many elements is the whole set. */
  lemma SubsetOfEqualSize<T>(a: set<T>, b: set<T>)
    requires a <= b && |a| == |b|
    ensures a == b
  {
    assert b == a + (b - a);
    assert |b| == |a| + |b - a|;
  }

  lemma SubsetSize<T>(a: set<T>, b: set<T>)
    requires a <= b
    ensures |a| <= |b|
  {
    assert b == a + (b - a);
    assert |b| == |a| + |b - a|;
  }

  /** Some member at which a measure is least. */
  lemma {:induction false} Least<T>(s: set<T>, measure: T -> int) returns (x: T)
    requires s != {}
    ensures x in s && forall y :: y in s ==> measure(x) <= measure(y)
  {
    x :| x in s;
    if s - {x} != {} {
      var y := Least(s - {x}, measure);
      if measure(y) < measure(x) { x := y; }
    }
  }

  /** The numbers from 1 to n. */
  function Upto(n: nat): (s: set<int>)
    ensures |s| == n
    ensures forall k :: k in s <==> 1 <= k <= n
  {
    if n == 0 then {} else Upto(n - 1) + {n}
  }

  /** The distinct members of a list. */
  function SetOf<T(==,!new)>(xs: seq<T>): (s: set<T>)
    ensures forall x :: x in s <==> x in xs
  {
    set x | x in xs
  }

  ghost predicate Distinct<T(!new)>(xs: seq<T>) {
    forall i, j :: 0 <= i < j < |xs| ==> xs[i] != xs[j]
  }

  /** A list has at most as many distinct members as entries, and exactly as many when no entry repeats. */
  lemma {:induction false} DistinctIffFullSize<T(!new)>(xs: seq<T>)
    ensures |SetOf(xs)| <= |xs|
    ensures |SetOf(xs)| == |xs| <==> Distinct(xs)
  {
    if xs == [] {
    } else {
      var n := |xs| - 1;
      var init, last := xs[..n], xs[n];
      DistinctIffFullSize(init);
      assert xs == init + [last];
      assert SetOf(xs) == SetOf(init) + {last};
      if last in init {
        assert SetOf(xs) == SetOf(init);
        var i :| 0 <= i < n && init[i] == last;
        assert xs[i] == xs[n];
      } else {
        assert Distinct(xs) <==> Distinct(init) by {
          assert Distinct(xs) ==> Distinct(init) by {
            assert forall i :: 0 <= i < n ==> init[i] == xs[i];
          }
          if Distinct(init) {
            forall i, j | 0 <= i < j < |xs| ensures xs[i] != xs[j] {
              assert xs[i] == init[i];
              if j < n { assert xs[j] == init[j]; }
            }
          }
        }
      }
    }
  }

  lemma DistinctRest<T(!new)>(xs: seq<T>)
    requires Distinct(xs) && xs != []
    ensures SetOf(xs) == {xs[0]} + SetOf(xs[1..]) && xs[0] !in xs[1..] && Distinct(xs[1..])
  {
    assert forall i :: 0 <= i < |xs| - 1 ==> xs[1..][i] == xs[i + 1];
  }

  lemma DistinctWith<T(!new)>(x: T, xs: seq<T>)
    requires Distinct(xs) && x !in xs
    ensures Distinct([x] + xs)
  {
  }

  /** The keys to which `cell` gives a value, with that value. */
  function Collect<K, V>(ids: set<K>, cell: K -> Option<V>): map<K, V> {
    map k | k in ids && cell(k).Some? :: cell(k).value
  }

  lemma CollectSame<K, V>(ids: set<K>, f: K -> Option<V>, g: K -> Option<V>)
    requires forall k :: k in ids ==> f(k) == g(k)
    ensures Collect(ids, f) == Collect(ids, g)
  {
  }

  lemma CollectSplit<K, V>(ids: set<K>, f: K -> Option<V>, g: K -> Option<V>, h: K -> Option<V>)
    requires forall k :: k in ids ==> h(k) == (if f(k).Some? then f(k) else g(k)) && (f(k).None? || g(k).None?)
    ensures Collect(ids, f).Keys !! Collect(ids, g).Keys
    ensures Collect(ids, h) == Collect(ids, f) + Collect(ids, g)
  {
  }

  lemma MapsEqual<K, V>(a: map<K, V>, b: map<K, V>)
    requires a.Keys == b.Keys && forall k :: k in a ==> a[k] == b[k]
    ensures a == b
  {
  }
}
