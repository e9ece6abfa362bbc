/** Tables of rows under row ids, read through a unique key: what one insert or update does to that view. */
module KeyedTables {

  /** No two rows have the same key. */
  ghost predicate Injective<I(!new), R, K(!new)>(rows: map<I, R>, key: R -> K) {
    forall a, b {:trigger key(rows[a]), key(rows[b])} ::
      a in rows && b in rows && key(rows[a]) == key(rows[b]) ==> a == b
  }

  /** The values of the rows, by key. */
  ghost function Index<I(!new), R, K(!new), V>(rows: map<I, R>, key: R -> K, val: R -> V): map<K, V>
    requires Injective(rows, key)
  {
    map i | i in rows :: key(rows[i]) := val(rows[i])
  }

  lemma IndexAt<I(!new), R, K(!new), V>(rows: map<I, R>, key: R -> K, val: R -> V, i: I)
    requires Injective(rows, key) && i in rows
    ensures key(rows[i]) in Index(rows, key, val) && Index(rows, key, val)[key(rows[i])] == val(rows[i])
  {
  }

  lemma IndexFrom<I(!new), R, K(!new), V>(rows: map<I, R>, key: R -> K, val: R -> V, k: K) returns (i: I)
    requires Injective(rows, key) && k in Index(rows, key, val)
    ensures i in rows && key(rows[i]) == k && Index(rows, key, val)[k] == val(rows[i])
  {
    i :| i in rows && key(rows[i]) == k;
    IndexAt(rows, key, val, i);
  }

  /** Storing a row under its own id, its key being free or already its own, stores one value in the view. */
  lemma IndexStore<I(!new), R, K(!new), V>(before: map<I, R>, after: map<I, R>, i: I, row: R, key: R -> K, val: R -> V)
    requires Injective(before, key) && after == before[i := row]
    requires if i in before then key(before[i]) == key(row)
             else forall x :: x in before ==> key(before[x]) != key(row)
    ensures Injective(after, key)
    ensures Index(after, key, val) == Index(before, key, val)[key(row) := val(row)]
  {
    assert Injective(after, key);
    var expected := Index(before, key, val)[key(row) := val(row)];
    IndexAt(after, key, val, i);
    forall k | k in Index(after, key, val) ensures k in expected && Index(after, key, val)[k] == expected[k] {
      var x := IndexFrom(after, key, val, k);
      if x != i {
        IndexAt(before, key, val, x);
        assert key(before[x]) != key(row);
      }
    }
    forall k | k in expected ensures k in Index(after, key, val) {
      if k != key(row) {
        var x := IndexFrom(before, key, val, k);
        IndexAt(after, key, val, x);
      }
    }
    assert expected.Keys == Index(after, key, val).Keys;
  }

  lemma StoreAfter<K(!new), V>(m: map<K, V>, n: map<K, V>, k: K, v: V)
    ensures (m + n)[k := v] == m + n[k := v]
  {
  }

  /** The view depends on nothing but keys and values. */
  lemma IndexSame<I(!new), R, K(!new), V>(a: map<I, R>, b: map<I, R>, key: R -> K, val: R -> V)
    requires Injective(a, key) && a.Keys == b.Keys
    requires forall i :: i in a ==> key(a[i]) == key(b[i]) && val(a[i]) == val(b[i])
    ensures Injective(b, key) && Index(b, key, val) == Index(a, key, val)
  {
    assert Injective(b, key);
    forall k | k in Index(a, key, val)
      ensures k in Index(b, key, val) && Index(b, key, val)[k] == Index(a, key, val)[k]
    {
      var i := IndexFrom(a, key, val, k);
      IndexAt(b, key, val, i);
    }
    forall k | k in Index(b, key, val) ensures k in Index(a, key, val) {
      var i := IndexFrom(b, key, val, k);
      IndexAt(a, key, val, i);
    }
  }

  /** Deleting the rows whose keys are unwanted deletes those keys from the view. */
  lemma IndexFilter<I(!new), R, K(!new), V>(rows: map<I, R>, kept: map<I, R>, view: map<K, V>, key: R -> K, val: R -> V,
                                            wanted: K -> bool)
    requires Injective(rows, key)
    requires forall i :: i in kept <==> i in rows && wanted(key(rows[i]))
    requires forall i :: i in kept ==> kept[i] == rows[i]
    requires forall k :: k in view <==> k in Index(rows, key, val) && wanted(k)
    requires forall k :: k in view ==> view[k] == Index(rows, key, val)[k]
    ensures Injective(kept, key) && Index(kept, key, val) == view
  {
    assert Injective(kept, key);
    forall k | k in Index(kept, key, val) ensures k in view && Index(kept, key, val)[k] == view[k] {
      var i := IndexFrom(kept, key, val, k);
      IndexAt(rows, key, val, i);
    }
    forall k | k in view ensures k in Index(kept, key, val) {
      var i := IndexFrom(rows, key, val, k);
      IndexAt(kept, key, val, i);
    }
    assert view.Keys == Index(kept, key, val).Keys;
  }

  lemma AddAfter<K(!new), V>(a: map<K, V>, b: map<K, V>, c: map<K, V>)
    ensures a + b + c == a + (b + c)
  {
  }
}
