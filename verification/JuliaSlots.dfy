/**
 What an expansion of keys with different paths contains: every path that some key's path extends is a
 dictionary, every other key's path holds that key's value, and there is nothing else.  Hence the order of the
 keys does not matter, and a value survives just when no other path extends its own.
 */
module JuliaSlots {
  import opened JuliaParser
  import opened JuliaInPlace
  import opened JuliaAliases
  import FiniteSets

  /** What is found at a path. */
  datatype Slot = Absent | Inner | Leaf(value: Value)

  function SlotAt(d: Tree, q: Path): Slot
    decreases |q|
  {
    if q == [] then Inner
    else if q[0] !in d then Absent
    else if d[q[0]].Dict? then SlotAt(d[q[0]].entries, q[1..])
    else if |q| == 1 then Leaf(d[q[0]])
    else Absent
  }

  /** The slot at q after a value that is not a dictionary has been set at p. */
  function SlotAfter(before: Slot, p: Path, value: Value, q: Path): Slot {
    if p == q then
      if before.Inner? then Inner else if before.Leaf? then Leaf(Combine(before.value, value)) else Leaf(value)
    else if q <= p then Inner
    else before
  }

  lemma {:induction false} SetItemSlots(d: Tree, p: Path, value: Value, q: Path)
    requires p != [] && !value.Dict?
    ensures SlotAt(SetItem(d, p, value), q) == SlotAfter(SlotAt(d, q), p, value, q)
    decreases |p|
  {
    if q != [] && |p| > 1 && q[0] == p[0] {
      var sub := if p[0] in d && d[p[0]].Dict? then d[p[0]].entries else map[];
      SetItemSlots(sub, p[1..], value, q[1..]);
      assert (q <= p) <==> (q[1..] <= p[1..]);
      assert (q == p) <==> (q[1..] == p[1..]) by {
        assert q == [q[0]] + q[1..] && p == [p[0]] + p[1..];
      }
    }
  }

  // ---------------------------------------------------------------- the values of one key

  /** What a fresh slot holds after values are set one after another. */
  function Gather(values: seq<Value>): Value
    requires values != []
  {
    if |values| == 1 then values[0] else Combine(Gather(values[..|values| - 1]), values[|values| - 1])
  }

  ghost predicate Settable(values: seq<Value>) {
    values != [] && forall v :: v in values ==> !v.Dict?
  }

  lemma {:induction false} SetItemsSlots(d: Tree, p: Path, values: seq<Value>, q: Path)
    requires p != [] && Settable(values) && !SlotAt(d, p).Leaf?
    ensures SlotAt(SetItems(d, p, values), q) == SlotAfter(SlotAt(d, q), p, Gather(values), q)
  {
    var init, last := values[..|values| - 1], values[|values| - 1];
    assert last in values;
    if init == [] {
      SetItemSlots(d, p, last, q);
    } else {
      assert forall v :: v in init ==> v in values;
      SetItemsSlots(d, p, init, q);
      SetItemSlots(SetItems(d, p, init), p, last, q);
    }
  }

  // ---------------------------------------------------------------- all keys

  /** No two keys have the same path, apart from those that are dropped. */
  ghost predicate PathsDiffer(x: Expansion, keys: seq<string>) {
    forall i, j :: 0 <= i < j < |keys| && x.target(keys[i]) != [] ==> x.target(keys[i]) != x.target(keys[j])
  }

  ghost predicate AllSettable(x: Expansion, d: Tree, keys: seq<string>) {
    forall k :: k in keys ==> k in d && Settable(x.spread(k, d[k]))
  }

  /** Some key's path goes on beyond q. */
  ghost predicate Extended(x: Expansion, keys: seq<string>, q: Path) {
    exists k :: k in keys && q < x.target(k)
  }

  ghost predicate Taken(x: Expansion, keys: seq<string>, q: Path) {
    exists k :: k in keys && x.target(k) == q
  }

  /** What the expansion of keys with different paths is to have at a path. */
  ghost predicate RightSlot(x: Expansion, d: Tree, keys: seq<string>, q: Path, slot: Slot)
    requires AllSettable(x, d, keys)
  {
    if q == [] || Extended(x, keys, q) then slot == Inner
    else if Taken(x, keys, q) then
      slot.Leaf? && forall k :: k in keys && x.target(k) == q ==> slot.value == Gather(x.spread(k, d[k]))
    else slot == Absent
  }

  lemma {:induction false} FoldSlots(x: Expansion, d: Tree, keys: seq<string>, q: Path)
    requires AllSettable(x, d, keys) && PathsDiffer(x, keys)
    ensures RightSlot(x, d, keys, q, SlotAt(Fold(d, x, keys), q))
  {
    if keys != [] {
      var init, key := keys[..|keys| - 1], keys[|keys| - 1];
      InitFacts(x, d, keys);
      FoldSlots(x, d, init, q);
      var p := x.target(key);
      if p != [] {
        FoldSlots(x, d, init, p);
        NotTaken(x, init, key);
        SetItemsSlots(Fold(d, x, init), p, x.spread(key, d[key]), q);
        OneMoreKey(x, d, init, key, q, SlotAt(Fold(d, x, init), q), SlotAt(Fold(d, x, init), p));
      }
    }
  }

  lemma InitFacts(x: Expansion, d: Tree, keys: seq<string>)
    requires AllSettable(x, d, keys) && PathsDiffer(x, keys) && keys != []
    ensures var init, key := keys[..|keys| - 1], keys[|keys| - 1];
            && keys == init + [key] && key in keys && (forall k :: k in keys <==> k in init || k == key)
            && AllSettable(x, d, init) && PathsDiffer(x, init)
  {
    var init, key := keys[..|keys| - 1], keys[|keys| - 1];
    assert keys == init + [key];
  }

  lemma NotTaken(x: Expansion, init: seq<string>, key: string)
    requires PathsDiffer(x, init + [key]) && x.target(key) != []
    ensures !Taken(x, init, x.target(key))
  {
    var keys := init + [key];
    forall k | k in init ensures x.target(k) != x.target(key) {
      var i :| 0 <= i < |init| && init[i] == k;
      assert keys[i] == k && keys[|init|] == key;
    }
  }

  lemma OneMoreKey(x: Expansion, d: Tree, init: seq<string>, key: string, q: Path, slot: Slot, own: Slot)
    requires AllSettable(x, d, init + [key]) && AllSettable(x, d, init) && RightSlot(x, d, init, q, slot)
    requires key in init + [key] && x.target(key) != [] && !Taken(x, init, x.target(key))
    ensures RightSlot(x, d, init + [key], q, SlotAfter(slot, x.target(key), Gather(x.spread(key, d[key])), q))
  {
    var keys, p := init + [key], x.target(key);
    assert forall k :: k in keys <==> k in init || k == key;
    assert Extended(x, keys, q) <==> Extended(x, init, q) || q < p;
    assert Taken(x, keys, q) <==> Taken(x, init, q) || q == p;
  }

  // ---------------------------------------------------------------- trees with the same slots

  /** Trees that agree at every path are equal. */
  lemma {:induction false} SameSlots(a: Value, b: Value)
    requires a.Dict? && b.Dict? && forall q :: SlotAt(a.entries, q) == SlotAt(b.entries, q)
    ensures a == b
    decreases a
  {
    forall k ensures k in a.entries <==> k in b.entries {
      SlotOfOne(a.entries, k);
      SlotOfOne(b.entries, k);
    }
    forall k | k in a.entries ensures a.entries[k] == b.entries[k] {
      SlotOfOne(a.entries, k);
      SlotOfOne(b.entries, k);
      if a.entries[k].Dict? {
        forall q ensures SlotAt(a.entries[k].entries, q) == SlotAt(b.entries[k].entries, q) {
          SlotBelow(a.entries, k, q);
          SlotBelow(b.entries, k, q);
        }
        SameSlots(a.entries[k], b.entries[k]);
      }
    }
    FiniteSets.MapsEqual(a.entries, b.entries);
  }

  lemma SlotOfOne(d: Tree, k: string)
    ensures SlotAt(d, [k]) == if k !in d then Absent else if d[k].Dict? then Inner else Leaf(d[k])
  {
  }

  lemma SlotBelow(d: Tree, k: string, q: Path)
    requires k in d && d[k].Dict?
    ensures SlotAt(d, [k] + q) == SlotAt(d[k].entries, q)
  {
    assert ([k] + q)[1..] == q;
  }

  /** With different paths no key stands for a later one. */
  lemma NoAliases(x: Expansion, keys: seq<string>)
    requires Regular(x) && PathsDiffer(x, keys)
    ensures AliasesGoOn(x, keys)
  {
    forall i, j | 0 <= i < j < |keys| ensures x.target(keys[i]) != [keys[j]] {
      if x.target(keys[i]) != [] {
        assert Stays(x, x.target(keys[i])[0]);
      }
    }
  }

  /** The in-place expansion of keys with different paths has the right slot at every path. */
  lemma ExpansionSlots(x: Expansion, d: Tree, keys: seq<string>, q: Path)
    requires Regular(x) && FromQuery(d) && ListsKeys(keys, d)
    requires PathsDiffer(x, keys) && AllSettable(x, d, keys)
    ensures RightSlot(x, d, keys, q, SlotAt(InPlace(d, x, keys), q))
  {
    NoAliases(x, keys);
    SameWhenAliasesGoOn(d, x, keys);
    FoldSlots(x, d, keys, q);
  }

  lemma OneRightSlot(x: Expansion, d: Tree, keys: seq<string>, keys': seq<string>, q: Path, a: Slot, b: Slot)
    requires AllSettable(x, d, keys) && AllSettable(x, d, keys') && forall k :: k in keys <==> k in keys'
    requires RightSlot(x, d, keys, q, a) && RightSlot(x, d, keys', q, b)
    ensures a == b
  {
  }

  /** The order in which the keys are visited makes no difference. */
  lemma AnyOrderSameTree(x: Expansion, d: Tree, keys: seq<string>, keys': seq<string>)
    requires Regular(x) && FromQuery(d) && ListsKeys(keys, d) && ListsKeys(keys', d)
    requires PathsDiffer(x, keys) && PathsDiffer(x, keys') && AllSettable(x, d, keys)
    ensures InPlace(d, x, keys) == InPlace(d, x, keys')
  {
    var a, b := Dict(InPlace(d, x, keys)), Dict(InPlace(d, x, keys'));
    assert AllSettable(x, d, keys');
    forall q ensures SlotAt(a.entries, q) == SlotAt(b.entries, q) {
      ExpansionSlots(x, d, keys, q);
      ExpansionSlots(x, d, keys', q);
      OneRightSlot(x, d, keys, keys', q, SlotAt(a.entries, q), SlotAt(b.entries, q));
    }
    SameSlots(a, b);
  }

  /** A key's value survives, at its own path, just when no other path strictly extends that path. */
  lemma SurvivesIffNotExtended(x: Expansion, d: Tree, keys: seq<string>, key: string)
    requires Regular(x) && FromQuery(d) && ListsKeys(keys, d)
    requires PathsDiffer(x, keys) && AllSettable(x, d, keys)
    requires key in keys && x.target(key) != []
    ensures SlotAt(InPlace(d, x, keys), x.target(key)) == Leaf(Gather(x.spread(key, d[key])))
       <==> !Extended(x, keys, x.target(key))
  {
    ExpansionSlots(x, d, keys, x.target(key));
    assert Taken(x, keys, x.target(key));
  }
}
