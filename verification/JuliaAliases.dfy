/**
 Exactly when the in-place expansion equals setting the same values into an empty dictionary, whatever the
 values are: when every key that an earlier key stands for is also extended by some key, so that a dictionary
 takes the place of both in the end.
 */
module JuliaAliases {
  import opened JuliaParser
  import opened JuliaInPlace
  import FiniteSets

  /** No dictionary occurs in the value. */
  predicate DictFree(v: Value) {
    match v
    case Scalar(_) => true
    case List(items) => forall i :: 0 <= i < |items| ==> DictFree(items[i])
    case Dict(_) => false
  }

  /** Values as the parser collects them: texts, and lists that are not empty. */
  ghost predicate FromQuery(d: Tree) {
    forall k :: k in d ==> DictFree(d[k]) && d[k] != List([])
  }

  /** Some key's path goes on beyond the component. */
  ghost predicate GoesOn(x: Expansion, keys: seq<string>, c: string) {
    exists i :: 0 <= i < |keys| && |x.target(keys[i])| > 1 && x.target(keys[i])[0] == c
  }

  /** A key that an earlier key stands for is extended by some key. */
  ghost predicate AliasesGoOn(x: Expansion, keys: seq<string>) {
    forall i, j :: 0 <= i < j < |keys| && x.target(keys[i]) == [keys[j]] ==> GoesOn(x, keys, keys[j])
  }

  /** The value is the text, or a list that starts with it. */
  predicate Starts(v: Value, t: string) {
    v == Scalar(t) || (v.List? && v.items != [] && v.items[0] == Scalar(t))
  }

  /** What both expansions do with the values they spread. */
  ghost predicate SpreadsPlainly(x: Expansion) {
    && (forall key, v :: DictFree(v) ==> AllDictFree(x.spread(key, v)))
    && (forall key, v :: v != List([]) ==> x.spread(key, v) != [])
    && (forall key, v, t :: Starts(v, t) && x.target(key) == [key] ==> FirstStarts(x.spread(key, v), t))
    && (forall key, t :: FirstStarts(x.spread(key, Scalar(t)), t))
  }

  predicate AllDictFree(values: seq<Value>) {
    forall i :: 0 <= i < |values| ==> DictFree(values[i])
  }

  predicate FirstStarts(values: seq<Value>, t: string) {
    values != [] && Starts(values[0], t)
  }

  lemma {:induction false} WrapAllFacts(values: seq<Value>)
    ensures |WrapAll(values)| == |values|
    ensures forall i :: 0 <= i < |values| ==> WrapAll(values)[i] == List([values[i]])
  {
    if values != [] {
      WrapAllFacts(values[..|values| - 1]);
    }
  }

  lemma BracketSpreadFacts(key: string, v: Value, t: string)
    ensures DictFree(v) ==> AllDictFree(BracketSpread(key, v))
    ensures v != List([]) ==> BracketSpread(key, v) != []
    ensures Starts(v, t) && BracketPath(key) == [key] ==> FirstStarts(BracketSpread(key, v), t)
    ensures FirstStarts(BracketSpread(key, Scalar(t)), t)
  {
    WrapAllFacts(if v.List? then v.items else [v]);
    WrapAllFacts([Scalar(t)]);
    if BracketPath(key) == [key] {
      HeadAloneBrackets(key);
      BracketComponentAlone(key);
    }
  }

  lemma BothSpreadPlainly()
    ensures SpreadsPlainly(DOTS) && SpreadsPlainly(BRACKETS)
  {
    forall key, v | DictFree(v) ensures AllDictFree(BRACKETS.spread(key, v)) {
      BracketSpreadFacts(key, v, "");
    }
    forall key, v | v != List([]) ensures BRACKETS.spread(key, v) != [] {
      BracketSpreadFacts(key, v, "");
    }
    forall key, v, t | Starts(v, t) && BRACKETS.target(key) == [key] ensures FirstStarts(BRACKETS.spread(key, v), t) {
      BracketSpreadFacts(key, v, t);
    }
    forall key, t ensures FirstStarts(BRACKETS.spread(key, Scalar(t)), t) {
      BracketSpreadFacts(key, Scalar(t), t);
    }
  }

  /** A way of expanding that puts first components back and spreads values plainly. */
  ghost predicate Regular(x: Expansion) {
    HeadsStay(x) && SpreadsPlainly(x)
  }

  lemma BothRegular()
    ensures Regular(DOTS) && Regular(BRACKETS)
  {
    BothHeadsStay();
    BothSpreadPlainly();
  }

  // ---------------------------------------------------------------- what lasts

  /** The top-level keys that end as dictionaries. */
  ghost function Lasting(x: Expansion, keys: seq<string>): set<string> {
    set i | 0 <= i < |keys| && |x.target(keys[i])| > 1 :: x.target(keys[i])[0]
  }

  /** The dictionary without what will be replaced by one of those dictionaries. */
  ghost function Live(t: Tree, lasting: set<string>): Tree {
    map k | k in t && (k in lasting ==> t[k].Dict?) :: t[k]
  }

  /** Setting values, seen through what lasts. */
  ghost function LiveSet(t: Tree, lasting: set<string>, path: Path, values: seq<Value>): Tree {
    if path == [] || (|path| == 1 && path[0] in lasting) then t else SetItems(t, path, values)
  }

  lemma LiveSetItem(t: Tree, lasting: set<string>, path: Path, value: Value)
    requires path != [] && DictFree(value)
    ensures Live(SetItem(t, path, value), lasting)
         == if |path| == 1 && path[0] in lasting then Live(t, lasting) else SetItem(Live(t, lasting), path, value)
  {
  }

  lemma {:induction false} LiveSetItems(t: Tree, lasting: set<string>, path: Path, values: seq<Value>)
    requires path != [] && AllDictFree(values)
    ensures Live(SetItems(t, path, values), lasting) == LiveSet(Live(t, lasting), lasting, path, values)
  {
    if values != [] {
      var n := |values| - 1;
      LiveSetItems(t, lasting, path, values[..n]);
      LiveSetItem(SetItems(t, path, values[..n]), lasting, path, values[n]);
    }
  }

  /** Whatever is not a dictionary holds none. */
  ghost predicate TopFree(t: Tree) {
    forall k :: k in t && !t[k].Dict? ==> DictFree(t[k])
  }

  lemma CombineFree(held: Value, value: Value)
    requires DictFree(value) && DictFree(held)
    ensures DictFree(Combine(held, value))
  {
  }

  lemma SetItemFree(t: Tree, path: Path, value: Value)
    requires path != [] && TopFree(t) && DictFree(value)
    ensures TopFree(SetItem(t, path, value))
  {
    if |path| == 1 && path[0] in t && !t[path[0]].Dict? {
      CombineFree(t[path[0]], value);
    }
  }

  lemma {:induction false} SetItemsFree(t: Tree, path: Path, values: seq<Value>)
    requires path != [] && TopFree(t) && AllDictFree(values)
    ensures TopFree(SetItems(t, path, values))
  {
    if values != [] {
      var n := |values| - 1;
      SetItemsFree(t, path, values[..n]);
      SetItemFree(SetItems(t, path, values[..n]), path, values[n]);
    }
  }

  // ---------------------------------------------------------------- in step, seen through what lasts

  /** In place and from an empty dictionary, seen through what lasts, differ by the keys to come alone. */
  ghost predicate InStep(d: Tree, todo: set<string>, state: Tree, done: Tree, lasting: set<string>) {
    && TopFree(state) && TopFree(done)
    && Live(state, lasting) == Overlay(d, todo - lasting, Live(done, lasting))
    && Shadows(todo - lasting, Live(done, lasting))
  }

  lemma LiveWithout(t: Tree, lasting: set<string>, key: string)
    ensures Live(t - {key}, lasting) == Live(t, lasting) - {key}
  {
  }

  /** Setting the values of a key from both sides at once. */
  lemma LiveSpread(t: Tree, x: Expansion, key: string, value: Value, lasting: set<string>)
    requires TopFree(t) && AllDictFree(x.spread(key, value))
    ensures TopFree(SetSpread(t, x, key, value))
    ensures Live(SetSpread(t, x, key, value), lasting)
         == LiveSet(Live(t, lasting), lasting, x.target(key), x.spread(key, value))
  {
    if x.target(key) != [] {
      SetItemsFree(t, x.target(key), x.spread(key, value));
      LiveSetItems(t, lasting, x.target(key), x.spread(key, value));
    }
  }

  /** A dictionary in a key's place is put back. */
  lemma DictPutBack(t: Tree, x: Expansion, key: string)
    requires key in t && t[key].Dict? && Stays(x, key)
    ensures Step(t, x, key) == t
  {
    assert x.spread(key, t[key]) == [t[key]];
    SetOne(t - {key}, [key], t[key]);
    assert (t - {key})[key := t[key]] == t;
  }

  lemma TopFreeWithout(t: Tree, key: string)
    requires TopFree(t)
    ensures TopFree(t - {key})
  {
  }

  /** A key that another key's path extends: neither side shows its values. */
  lemma LastingStep(d: Tree, x: Expansion, todo: set<string>, state: Tree, done: Tree,
                    lasting: set<string>, key: string)
    requires InStep(d, todo, state, done, lasting) && key in state && key in lasting && key in d && DictFree(d[key])
    requires Stays(x, key) && SpreadsPlainly(x)
    ensures InStep(d, todo - {key}, Step(state, x, key), SetSpread(done, x, key, d[key]), lasting)
  {
    assert todo - {key} - lasting == todo - lasting;
    LiveSpread(done, x, key, d[key], lasting);
    if state[key].Dict? {
      DictPutBack(state, x, key);
    } else {
      TopFreeWithout(state, key);
      LiveWithout(state, lasting, key);
      assert Live(state, lasting) - {key} == Live(state, lasting);
      LiveSpread(state - {key}, x, key, state[key], lasting);
    }
  }

  /** Any other key, when it stands for no later key but such ones. */
  lemma OrdinaryStep(d: Tree, x: Expansion, todo: set<string>, state: Tree, done: Tree,
                     lasting: set<string>, key: string)
    requires InStep(d, todo, state, done, lasting) && FromQuery(d) && SpreadsPlainly(x)
    requires key in d && key in todo && key in state && key !in lasting && key !in done
    requires forall k :: k in todo && k != key && k !in lasting ==> x.target(key) != [k]
    ensures InStep(d, todo - {key}, Step(state, x, key), SetSpread(done, x, key, d[key]), lasting)
  {
    var live, rest := Live(done, lasting), todo - lasting - {key};
    assert todo - {key} - lasting == rest;
    assert key in Overlay(d, todo - lasting, live) && Overlay(d, todo - lasting, live)[key] == d[key];
    assert key in Live(state, lasting) && state[key] == d[key];
    TopFreeWithout(state, key);
    LiveWithout(state, lasting, key);
    OverlayWithout(d, todo - lasting, live, key);
    LiveSpread(state - {key}, x, key, d[key], lasting);
    LiveSpread(done, x, key, d[key], lasting);
    OrdinarySet(d, x, rest, live, lasting, key);
  }

  lemma OverlayWithout(d: Tree, todo: set<string>, done: Tree, key: string)
    requires key !in done
    ensures Overlay(d, todo, done) - {key} == Overlay(d, todo - {key}, done)
  {
  }

  lemma OrdinarySet(d: Tree, x: Expansion, rest: set<string>, live: Tree, lasting: set<string>, key: string)
    requires FromQuery(d) && Shadows(rest, live) && key in d
    requires forall k :: k in rest ==> x.target(key) != [k]
    ensures var path, values := x.target(key), x.spread(key, d[key]);
            && LiveSet(Overlay(d, rest, live), lasting, path, values)
               == Overlay(d, rest, LiveSet(live, lasting, path, values))
            && Shadows(rest, LiveSet(live, lasting, path, values))
  {
    var path := x.target(key);
    if path != [] && !(|path| == 1 && path[0] in lasting) {
      if |path| == 1 { assert path == [path[0]]; }
      SetItemsOverlay(d, rest, live, path, x.spread(key, d[key]));
    }
  }

  /** A key that something has been set under, but that nothing extends, cannot be still to come. */
  lemma ShadowedOrdinary(d: Tree, x: Expansion, todo: set<string>, state: Tree, done: Tree,
                         lasting: set<string>, key: string)
    requires InStep(d, todo, state, done, lasting) && Stays(x, key) && SpreadsPlainly(x) && FromQuery(d)
    requires key in d && key in todo && key in state && key !in lasting && key in done
    ensures InStep(d, todo - {key}, Step(state, x, key), SetSpread(done, x, key, d[key]), lasting)
  {
    var live := Live(done, lasting);
    assert key in live && live[key].Dict? && live[key] == done[key];
    assert key in Overlay(d, todo - lasting, live) && Overlay(d, todo - lasting, live)[key] == live[key];
    assert key in Live(state, lasting) && state[key] == done[key];
    DictPutBack(state, x, key);
    DroppedOnDict(done, key, x.spread(key, d[key]));
    assert Overlay(d, todo - {key} - lasting, live) == Overlay(d, todo - lasting, live);
  }

  lemma AnyStep(d: Tree, x: Expansion, keys: seq<string>, i: nat, state: Tree, done: Tree)
    requires Regular(x) && FromQuery(d) && AliasesGoOn(x, keys) && i < |keys|
    requires InStep(d, Rest(keys, i), state, done, Lasting(x, keys))
    requires keys[i] in d && keys[i] in state && (keys[i] in done ==> IsHead(x, keys, keys[i]))
    ensures InStep(d, Rest(keys, i) - {keys[i]}, Step(state, x, keys[i]), SetSpread(done, x, keys[i], d[keys[i]]),
                   Lasting(x, keys))
  {
    var key, todo, lasting := keys[i], Rest(keys, i), Lasting(x, keys);
    assert key in todo;
    if key in lasting {
      LastingStays(x, keys, key);
      LastingStep(d, x, todo, state, done, lasting, key);
    } else if key in done {
      var h :| 0 <= h < |keys| && x.target(keys[h]) != [] && x.target(keys[h])[0] == key;
      ShadowedOrdinary(d, x, todo, state, done, lasting, key);
    } else {
      AliasedLast(x, keys, i);
      OrdinaryStep(d, x, todo, state, done, lasting, key);
    }
  }

  lemma DoneIsHead(d: Tree, x: Expansion, keys: seq<string>, i: nat, c: string)
    requires i <= |keys| && (forall j :: 0 <= j < |keys| ==> keys[j] in d) && c in Fold(d, x, keys[..i])
    ensures IsHead(x, keys, c)
  {
    FoldHeads(d, x, keys[..i], c);
    var h :| 0 <= h < i && x.target(keys[..i][h]) != [] && x.target(keys[..i][h])[0] == c;
    assert keys[..i][h] == keys[h];
  }

  lemma FoldNext(d: Tree, x: Expansion, keys: seq<string>, i: nat)
    requires i < |keys| && forall j :: 0 <= j < |keys| ==> keys[j] in d
    ensures Fold(d, x, keys[..i + 1]) == SetSpread(Fold(d, x, keys[..i]), x, keys[i], d[keys[i]])
  {
    assert keys[..i + 1][..i] == keys[..i];
  }

  lemma {:induction false} KeysStay(d: Tree, x: Expansion, keys: seq<string>, i: nat)
    requires ListsKeys(keys, d) && i <= |keys|
    ensures forall j :: i <= j < |keys| ==> keys[j] in InPlace(d, x, keys[..i])
  {
    if i > 0 {
      KeysStay(d, x, keys, i - 1);
      InPlaceNext(d, x, keys, i - 1);
      StepKeeps(InPlace(d, x, keys[..i - 1]), x, keys[i - 1]);
    }
  }

  lemma {:induction false} RunsInStep(d: Tree, x: Expansion, keys: seq<string>, i: nat)
    requires Regular(x) && ListsKeys(keys, d) && FromQuery(d) && AliasesGoOn(x, keys) && i <= |keys|
    ensures InStep(d, Rest(keys, i), InPlace(d, x, keys[..i]), Fold(d, x, keys[..i]), Lasting(x, keys))
  {
    if i == 0 {
      StartInStep(d, keys, Lasting(x, keys));
    } else {
      var state, done := InPlace(d, x, keys[..i - 1]), Fold(d, x, keys[..i - 1]);
      RunsInStep(d, x, keys, i - 1);
      KeysStay(d, x, keys, i - 1);
      InPlaceNext(d, x, keys, i - 1);
      FoldNext(d, x, keys, i - 1);
      RestShrinks(keys, i - 1);
      if keys[i - 1] in done { DoneIsHead(d, x, keys, i - 1, keys[i - 1]); }
      AnyStep(d, x, keys, i - 1, state, done);
    }
  }

  lemma StepKeeps(state: Tree, x: Expansion, key: string)
    requires key in state
    ensures forall k :: k in state && k != key ==> k in Step(state, x, key)
  {
    if x.target(key) != [] {
      SetItemsKeeps(state - {key}, x.target(key), x.spread(key, state[key]));
    }
  }

  lemma LastingStays(x: Expansion, keys: seq<string>, key: string)
    requires HeadsStay(x) && key in Lasting(x, keys)
    ensures Stays(x, key)
  {
    var i :| 0 <= i < |keys| && |x.target(keys[i])| > 1 && x.target(keys[i])[0] == key;
    assert x.target(keys[i]) != [];
  }

  lemma AliasedLast(x: Expansion, keys: seq<string>, i: nat)
    requires i < |keys| && AliasesGoOn(x, keys)
    ensures forall k :: k in Rest(keys, i) && k != keys[i] && k !in Lasting(x, keys) ==> x.target(keys[i]) != [k]
  {
    forall k | k in Rest(keys, i) && k != keys[i] && x.target(keys[i]) == [k] ensures k in Lasting(x, keys) {
      var j :| i <= j < |keys| && keys[j] == k;
      assert GoesOn(x, keys, k);
    }
  }

  lemma StartInStep(d: Tree, keys: seq<string>, lasting: set<string>)
    requires ListsKeys(keys, d) && FromQuery(d)
    ensures InStep(d, Rest(keys, 0), d, map[], lasting)
  {
    assert forall k :: k in keys <==> k in Rest(keys, 0);
    assert Live(map[], lasting) == map[];
    FiniteSets.MapsEqual(Live(d, lasting), Overlay(d, Rest(keys, 0) - lasting, map[]));
  }

  // ---------------------------------------------------------------- equal in the end

  lemma {:induction false} BecomesDict(t: Tree, path: Path, values: seq<Value>)
    requires |path| > 1 && values != []
    ensures path[0] in SetItems(t, path, values) && SetItems(t, path, values)[path[0]].Dict?
  {
  }

  lemma {:induction false} DictStays(t: Tree, path: Path, values: seq<Value>, c: string)
    requires path != [] && c in t && t[c].Dict?
    ensures c in SetItems(t, path, values) && SetItems(t, path, values)[c].Dict?
  {
    if values != [] {
      DictStays(t, path, values[..|values| - 1], c);
    }
  }

  /** An extended key ends as a dictionary. */
  lemma {:induction false} ExtendedIsDict(d: Tree, x: Expansion, keys: seq<string>, h: nat, i: nat)
    requires SpreadsPlainly(x) && FromQuery(d) && forall j :: 0 <= j < |keys| ==> keys[j] in d
    requires h < i <= |keys| && |x.target(keys[h])| > 1
    ensures var c := x.target(keys[h])[0]; c in Fold(d, x, keys[..i]) && Fold(d, x, keys[..i])[c].Dict?
  {
    FoldNext(d, x, keys, i - 1);
    var key, done := keys[i - 1], Fold(d, x, keys[..i - 1]);
    if h == i - 1 {
      BecomesDict(done, x.target(key), x.spread(key, d[key]));
    } else {
      ExtendedIsDict(d, x, keys, h, i - 1);
      if x.target(key) != [] {
        DictStays(done, x.target(key), x.spread(key, d[key]), x.target(keys[h])[0]);
      }
    }
  }

  lemma EqualWhenLasting(a: Tree, b: Tree, lasting: set<string>)
    requires Live(a, lasting) == Live(b, lasting)
    requires forall c :: c in lasting ==> c in b && b[c].Dict?
    ensures a == b
  {
    var live := Live(a, lasting);
    forall k | k in a || k in b ensures k in a && k in b && a[k] == b[k] {
      assert k in lasting ==> k in Live(b, lasting);
      assert k in live ==> k in a && k in b && live[k] == a[k] && live[k] == b[k];
    }
    FiniteSets.MapsEqual(a, b);
  }

  lemma SameWhenAliasesGoOn(d: Tree, x: Expansion, keys: seq<string>)
    requires Regular(x) && ListsKeys(keys, d) && FromQuery(d) && AliasesGoOn(x, keys)
    ensures InPlace(d, x, keys) == Fold(d, x, keys)
  {
    var n, lasting := |keys|, Lasting(x, keys);
    assert keys[..n] == keys && Rest(keys, n) == {};
    RunsInStep(d, x, keys, n);
    NothingToCome(d, Live(Fold(d, x, keys), lasting));
    forall c | c in lasting ensures c in Fold(d, x, keys) && Fold(d, x, keys)[c].Dict? {
      var h :| 0 <= h < n && |x.target(keys[h])| > 1 && x.target(keys[h])[0] == c;
      ExtendedIsDict(d, x, keys, h, n);
    }
    EqualWhenLasting(InPlace(d, x, keys), Fold(d, x, keys), lasting);
  }

  // ---------------------------------------------------------------- different for some values

  /** All keys hold one text but for one, which holds another. */
  ghost function Marked(keys: seq<string>, c: string): Tree {
    map k | k in keys :: Scalar(if k == c then "1" else "0")
  }

  ghost predicate StartsAt(t: Tree, c: string, text: string) {
    c in t && Starts(t[c], text)
  }

  lemma {:induction false} SetKeepsStart(t: Tree, path: Path, values: seq<Value>, c: string, text: string)
    requires path != [] && (path[0] == c ==> |path| == 1)
    requires StartsAt(t, c, text) || (path == [c] && c !in t && FirstStarts(values, text))
    ensures StartsAt(SetItems(t, path, values), c, text)
  {
    if values != [] {
      var n := |values| - 1;
      if n == 0 {
        SetOne(t, path, values[0]);
        assert values == [values[0]];
      } else {
        SetKeepsStart(t, path, values[..n], c, text);
      }
    }
  }

  /** The slot's key is met by no key's path that goes on. */
  ghost predicate StopsAt(x: Expansion, keys: seq<string>, c: string) {
    forall i :: 0 <= i < |keys| && x.target(keys[i]) != [] && x.target(keys[i])[0] == c ==> x.target(keys[i]) == [c]
  }

  lemma StepKeepsStart(state: Tree, x: Expansion, key: string, c: string, text: string)
    requires StartsAt(state, c, text) && key in state && SpreadsPlainly(x) && x.target(c) == [c]
    requires x.target(key) != [] && x.target(key)[0] == c ==> x.target(key) == [c]
    ensures StartsAt(Step(state, x, key), c, text)
  {
    if x.target(key) != [] {
      if key == c {
        assert FirstStarts(x.spread(c, state[c]), text);
      } else {
        assert StartsAt(state - {key}, c, text);
      }
      SetKeepsStart(state - {key}, x.target(key), x.spread(key, state[key]), c, text);
    }
  }

  /** In place, the values found under the key start with its own. */
  lemma {:induction false} OwnFirstInPlace(x: Expansion, keys: seq<string>, c: string, i: nat)
    requires FiniteSets.Distinct(keys) && c in keys && SpreadsPlainly(x) && x.target(c) == [c] && StopsAt(x, keys, c)
    requires i <= |keys|
    ensures StartsAt(InPlace(Marked(keys, c), x, keys[..i]), c, "1")
  {
    var d := Marked(keys, c);
    if i > 0 {
      OwnFirstInPlace(x, keys, c, i - 1);
      KeysStay(d, x, keys, i - 1);
      InPlaceNext(d, x, keys, i - 1);
      StepKeepsStart(InPlace(d, x, keys[..i - 1]), x, keys[i - 1], c, "1");
    }
  }

  /** From an empty dictionary, they start with the first alias's. */
  lemma {:induction false} AliasFirstInFold(x: Expansion, keys: seq<string>, a: nat, j: nat, i: nat)
    requires FiniteSets.Distinct(keys) && SpreadsPlainly(x) && a < j < |keys| && i <= |keys|
    requires x.target(keys[a]) == [keys[j]] && StopsAt(x, keys, keys[j])
    ensures var done := Fold(Marked(keys, keys[j]), x, keys[..i]);
            && (keys[j] in done ==> Starts(done[keys[j]], "0"))
            && (a < i ==> keys[j] in done)
  {
    var c, d := keys[j], Marked(keys, keys[j]);
    if i > 0 {
      AliasFirstInFold(x, keys, a, j, i - 1);
      FoldNext(d, x, keys, i - 1);
      var key, done := keys[i - 1], Fold(d, x, keys[..i - 1]);
      if c in done {
        if x.target(key) != [] { SetKeepsStart(done, x.target(key), x.spread(key, d[key]), c, "0"); }
      } else if x.target(key) != [] {
        FirstInFold(done, x, keys, a, j, i - 1);
      }
    }
  }

  lemma FirstInFold(done: Tree, x: Expansion, keys: seq<string>, a: nat, j: nat, i: nat)
    requires FiniteSets.Distinct(keys) && SpreadsPlainly(x) && a < j < |keys| && i < |keys| && StopsAt(x, keys, keys[j])
    requires x.target(keys[a]) == [keys[j]] && x.target(keys[i]) != []
    requires keys[j] !in done && (a < i ==> keys[j] in done)
    ensures var after := SetItems(done, x.target(keys[i]), x.spread(keys[i], Marked(keys, keys[j])[keys[i]]));
            && (keys[j] in after ==> Starts(after[keys[j]], "0"))
            && (a == i ==> keys[j] in after)
  {
    var c, key := keys[j], keys[i];
    var values := x.spread(key, Marked(keys, c)[key]);
    if x.target(key)[0] == c {
      assert key != c && FirstStarts(values, "0");
      SetKeepsStart(done, [c], values, c, "0");
    } else {
      SetItemsKeeps(done, x.target(key), values);
    }
  }

  ghost predicate SameEitherWay(d: Tree, x: Expansion, keys: seq<string>)
    requires ListsKeys(keys, d)
  {
    InPlace(d, x, keys) == Fold(d, x, keys)
  }

  lemma DifferWhenAliasStops(x: Expansion, keys: seq<string>, i: nat, j: nat)
    requires Regular(x) && FiniteSets.Distinct(keys) && i < j < |keys|
    requires x.target(keys[i]) == [keys[j]] && !GoesOn(x, keys, keys[j])
    ensures var d := Marked(keys, keys[j]); ListsKeys(keys, d) && FromQuery(d) && !SameEitherWay(d, x, keys)
  {
    var c, n := keys[j], |keys|;
    assert x.target(keys[i]) != [] && Stays(x, c);
    forall k | 0 <= k < n && x.target(keys[k]) != [] && x.target(keys[k])[0] == c ensures x.target(keys[k]) == [c] {
      assert |x.target(keys[k])| <= 1;
    }
    assert keys[..n] == keys;
    OwnFirstInPlace(x, keys, c, n);
    AliasFirstInFold(x, keys, i, j, n);
  }

  /**
   Expanding in place gives what setting the same values into an empty dictionary gives, for all values, if and
   only if every key that an earlier key stands for is extended by some key.
   */
  lemma InPlaceIsFoldIff(x: Expansion, keys: seq<string>)
    requires Regular(x) && FiniteSets.Distinct(keys)
    ensures (forall d :: ListsKeys(keys, d) && FromQuery(d) ==> SameEitherWay(d, x, keys)) <==> AliasesGoOn(x, keys)
  {
    if AliasesGoOn(x, keys) {
      forall d | ListsKeys(keys, d) && FromQuery(d) ensures SameEitherWay(d, x, keys) {
        SameWhenAliasesGoOn(d, x, keys);
      }
    } else {
      var i, j :| 0 <= i < j < |keys| && x.target(keys[i]) == [keys[j]] && !GoesOn(x, keys, keys[j]);
      DifferWhenAliasStops(x, keys, i, j);
    }
  }

  /** The dictionaries this is about are the ones the parser fills. */
  lemma {:induction false} ParsedFromQuery(params: seq<(string, string)>)
    ensures FromQuery(AddParams(map[], params))
  {
    if params != [] {
      ParsedFromQuery(params[..|params| - 1]);
    }
  }
}
