/**
 What the two expansions have in common, and how keys that are still to come lie over what has been set already
 while a dictionary is expanded in place.
 */
module JuliaInPlace {
  import opened JuliaParser
  import opened Wrappers
  import Text
  import FiniteSets
  import KeyedTables

  /** Parsed values are texts and lists. */
  ghost predicate Flat(d: Tree) {
    forall k :: k in d ==> !d[k].Dict?
  }

  // ---------------------------------------------------------------- a component is its own target

  lemma {:induction false} SplitFree(s: string, sep: char)
    ensures forall i :: 0 <= i < |Text.Split(s, sep)| ==> sep !in Text.Split(s, sep)[i]
  {
    if s != "" {
      SplitFree(s[1..], sep);
      var rest := Text.Split(s[1..], sep);
      assert sep !in rest[0];
    }
  }

  ghost predicate IsDotComponent(c: string) {
    c != "" && '.' !in c && Text.Strip(c) == c
  }

  lemma {:induction false} StripAllFacts(parts: seq<string>)
    requires forall i :: 0 <= i < |parts| ==> '.' !in parts[i]
    ensures forall i :: 0 <= i < |StripAll(parts)| ==> IsDotComponent(StripAll(parts)[i])
  {
    if parts != [] {
      Text.StripFacts(parts[0]);
      StripAllFacts(parts[1..]);
    }
  }

  lemma DotComponentAlone(c: string)
    requires IsDotComponent(c)
    ensures DotComponents(c) == [c]
  {
    Text.SplitPiece(c, '.');
    assert StripAll([c]) == [c] + StripAll([]);
  }

  lemma {:induction false} BracketFreeAll(c: string)
    requires '[' !in c && ']' !in c
    ensures BracketFree(c) == |c|
  {
    if c != "" {
      BracketFreeAll(c[1..]);
    }
  }

  lemma BracketComponentAlone(c: string)
    requires c != "" && '[' !in c && ']' !in c
    ensures BracketComponents(c) == Some(([c], false))
  {
    BracketFreeAll(c);
    assert c[..|c|] == c && c[|c|..] == "";
  }

  /** The key is its own single component, and a dictionary in its place is put back as it is. */
  ghost predicate Stays(x: Expansion, c: string) {
    x.target(c) == [c] && forall e: Tree :: x.spread(c, Dict(e)) == [Dict(e)]
  }

  /** The first component of any key is a key that stays where it is. */
  ghost predicate HeadsStay(x: Expansion) {
    forall key :: x.target(key) != [] ==> Stays(x, x.target(key)[0])
  }

  lemma HeadAloneDots(key: string)
    requires DotComponents(key) != []
    ensures IsDotComponent(DotComponents(key)[0])
  {
    SplitFree(key, '.');
    StripAllFacts(Text.Split(key, '.'));
  }

  lemma HeadAloneBrackets(key: string)
    requires BracketComponents(key).Some?
    ensures var c := BracketComponents(key).value.0[0];
            c != "" && '[' !in c && ']' !in c
  {
    var n := BracketFree(key);
    assert forall i :: 0 <= i < n ==> key[..n][i] == key[i];
  }

  /** Both expansions have this property. */
  lemma BothHeadsStay()
    ensures HeadsStay(DOTS) && HeadsStay(BRACKETS)
  {
    forall key | DotComponents(key) != [] ensures Stays(DOTS, DotComponents(key)[0]) {
      HeadAloneDots(key);
      DotComponentAlone(DotComponents(key)[0]);
    }
    forall key | BracketPath(key) != [] ensures Stays(BRACKETS, BracketPath(key)[0]) {
      HeadAloneBrackets(key);
      BracketComponentAlone(BracketPath(key)[0]);
    }
  }

  // ---------------------------------------------------------------- the overlay

  /** Keys still to come with their original values, overlaid by what has been set. */
  ghost function Overlay(d: Tree, todo: set<string>, done: Tree): Tree {
    (map k | k in d && k in todo :: d[k]) + done
  }

  ghost predicate Shadows(todo: set<string>, done: Tree) {
    forall k :: k in todo && k in done ==> done[k].Dict?
  }

  /** Setting an item that is not itself a key to come sees nothing of the keys to come. */
  lemma SetItemOverlay(d: Tree, todo: set<string>, done: Tree, path: Path, value: Value)
    requires path != [] && Flat(d) && Shadows(todo, done)
    requires |path| == 1 ==> path[0] !in todo
    ensures SetItem(Overlay(d, todo, done), path, value) == Overlay(d, todo, SetItem(done, path, value))
    ensures Shadows(todo, SetItem(done, path, value))
  {
    var key, over := path[0], Overlay(d, todo, done);
    assert |path| > 1 ==> (key in over && over[key].Dict? <==> key in done && done[key].Dict?);
    assert |path| == 1 ==> (key in over <==> key in done);
    assert key in done ==> over[key] == done[key];
    KeyedTables.StoreAfter(map k | k in d && k in todo :: d[k], done, key, SetItem(done, path, value)[key]);
  }

  lemma {:induction false} SetItemsOverlay(d: Tree, todo: set<string>, done: Tree, path: Path, values: seq<Value>)
    requires path != [] && Flat(d) && Shadows(todo, done)
    requires |path| == 1 ==> path[0] !in todo
    ensures SetItems(Overlay(d, todo, done), path, values) == Overlay(d, todo, SetItems(done, path, values))
    ensures Shadows(todo, SetItems(done, path, values))
  {
    if values != [] {
      var init := values[..|values| - 1];
      SetItemsOverlay(d, todo, done, path, init);
      SetItemOverlay(d, todo, SetItems(done, path, init), path, values[|values| - 1]);
    }
  }

  /** A dictionary that stands in a key's place is put back, and the key's own values are dropped. */
  lemma {:induction false} DroppedOnDict(done: Tree, key: string, values: seq<Value>)
    requires key in done && done[key].Dict?
    ensures SetItems(done, [key], values) == done
  {
    if values != [] {
      DroppedOnDict(done, key, values[..|values| - 1]);
      assert done[key := done[key]] == done;
    }
  }

  lemma SetOne(d: Tree, path: Path, value: Value)
    requires path != []
    ensures SetItems(d, path, [value]) == SetItem(d, path, value)
  {
    assert [value][..0] == [];
  }

  ghost predicate IsHead(x: Expansion, keys: seq<string>, c: string) {
    exists i :: 0 <= i < |keys| && x.target(keys[i]) != [] && x.target(keys[i])[0] == c
  }

  lemma HeadsGrow(x: Expansion, keys: seq<string>, key: string, c: string)
    ensures IsHead(x, keys, c) ==> IsHead(x, keys + [key], c)
    ensures x.target(key) != [] && x.target(key)[0] == c ==> IsHead(x, keys + [key], c)
  {
    var more := keys + [key];
    assert more[|keys|] == key;
    if i :| 0 <= i < |keys| && x.target(keys[i]) != [] && x.target(keys[i])[0] == c {
      assert more[i] == keys[i];
    }
  }

  /** The top-level keys of what has been set are first components of the keys visited. */
  lemma {:induction false} FoldHeads(d: Tree, x: Expansion, keys: seq<string>, c: string)
    requires forall i :: 0 <= i < |keys| ==> keys[i] in d
    requires c in Fold(d, x, keys)
    ensures IsHead(x, keys, c)
  {
    var init, key := keys[..|keys| - 1], keys[|keys| - 1];
    assert keys == init + [key];
    HeadsGrow(x, init, key, c);
    if c in Fold(d, x, init) {
      FoldHeads(d, x, init, c);
    } else {
      SetItemsKeeps(Fold(d, x, init), x.target(key), x.spread(key, d[key]));
    }
  }

  ghost function Rest(keys: seq<string>, i: nat): set<string>
    requires i <= |keys|
  {
    set j | i <= j < |keys| :: keys[j]
  }

  lemma RestShrinks(keys: seq<string>, i: nat)
    requires i < |keys| && FiniteSets.Distinct(keys)
    ensures keys[i] in Rest(keys, i) && Rest(keys, i + 1) == Rest(keys, i) - {keys[i]}
  {
  }

  lemma NothingToCome(d: Tree, done: Tree)
    ensures Overlay(d, {}, done) == done
  {
  }

  /**
   Expanding in place can differ from setting the same values into an empty dictionary: when an alias of a key
   comes before the key, in place the key's value is found by the alias and goes first; from an empty dictionary
   the alias goes first.
   */
  lemma AliasFirstDiffers(c: string, alias: string, v: string, w: string)
    requires IsDotComponent(c) && alias != c && DotComponents(alias) == [c]
    ensures var d := map[alias := Scalar(v), c := Scalar(w)];
            && InPlace(d, DOTS, [alias, c]) == map[c := List([Scalar(w), Scalar(v)])]
            && Fold(d, DOTS, [alias, c]) == map[c := List([Scalar(v), Scalar(w)])]
            && (InPlace(d, DOTS, [alias, c]) == Fold(d, DOTS, [alias, c]) <==> v == w)
  {
    var d: Tree := map[alias := Scalar(v), c := Scalar(w)];
    DotComponentAlone(c);
    AliasInPlace(DOTS, d, c, alias, v, w);
    AliasFold(DOTS, d, c, alias, v, w);
    assert [Scalar(w), Scalar(v)][0] == [Scalar(v), Scalar(w)][0] <==> v == w;
    var a: Tree, b: Tree := map[c := List([Scalar(w), Scalar(v)])], map[c := List([Scalar(v), Scalar(w)])];
    assert a[c] == b[c] <==> v == w;
  }

  /** A concrete pair of keys for which the two differ, whenever their values do. */
  lemma AliasFirstExample(alias: string, c: string, v: string, w: string)
    requires alias == " a" && c == "a" && v != w
    ensures var d := map[alias := Scalar(v), c := Scalar(w)];
            && InPlace(d, DOTS, [alias, c]) == map[c := List([Scalar(w), Scalar(v)])]
            && Fold(d, DOTS, [alias, c]) == map[c := List([Scalar(v), Scalar(w)])]
            && InPlace(d, DOTS, [alias, c]) != Fold(d, DOTS, [alias, c])
  {
    BlankIsAlias(alias, c);
    AliasFirstDiffers(c, alias, v, w);
  }

  /** A component with a blank before it. */
  ghost predicate IsBlanked(alias: string, c: string) {
    |alias| == 2 && |c| == 1 && alias[0] == ' ' && alias[1] == c[0] && c[0] == 'a'
  }

  lemma BlankIsAlias(alias: string, c: string)
    requires IsBlanked(alias, c)
    ensures IsDotComponent(c) && alias != c && DotComponents(alias) == [c]
  {
    BlankedStrips(alias, c);
    BlankedDotless(alias, c);
    SingleComponent(alias, c);
  }

  lemma BlankedStrips(alias: string, c: string)
    requires IsBlanked(alias, c)
    ensures Text.Strip(alias) == c && Text.Strip(c) == c
  {
    Text.StripBlank(alias, c);
  }

  lemma BlankedDotless(alias: string, c: string)
    requires IsBlanked(alias, c)
    ensures '.' !in alias && '.' !in c && alias != c && c != ""
  {
    Text.NowhereIn(alias, '.');
    Text.NowhereIn(c, '.');
  }

  /** A key without dots has its stripped text as its only component. */
  lemma SingleComponent(key: string, c: string)
    requires '.' !in key && Text.Strip(key) == c != ""
    ensures DotComponents(key) == [c]
  {
    Text.SplitPiece(key, '.');
    assert StripAll([key]) == [c] + StripAll([]);
  }

  ghost predicate Aliased(x: Expansion, c: string, alias: string) {
    && alias != c && x.target(alias) == [c] && x.target(c) == [c]
    && forall k, v :: x.spread(k, v) == [v]
  }

  lemma AliasInPlace(x: Expansion, d: Tree, c: string, alias: string, v: string, w: string)
    requires Aliased(x, c, alias) && d == map[alias := Scalar(v), c := Scalar(w)]
    ensures InPlace(d, x, [alias, c]) == map[c := List([Scalar(w), Scalar(v)])]
  {
    var mid: Tree := map[c := List([Scalar(w), Scalar(v)])];
    SetOne(d - {alias}, [c], Scalar(v));
    assert d - {alias} == map[c := Scalar(w)];
    assert Step(d, x, alias) == mid;
    SetOne(mid - {c}, [c], mid[c]);
    assert mid - {c} == map[];
    assert Step(mid, x, c) == mid;
    InPlaceTwo(d, x, alias, c);
  }

  lemma InPlaceTwo(d: Tree, x: Expansion, a: string, b: string)
    requires a in d && b in Step(d, x, a)
    ensures InPlace(d, x, [a, b]) == Step(Step(d, x, a), x, b)
  {
    assert [a, b][..1] == [a] && [a][..0] == [];
    assert InPlace(d, x, [a]) == Step(d, x, a);
  }

  lemma AliasFold(x: Expansion, d: Tree, c: string, alias: string, v: string, w: string)
    requires Aliased(x, c, alias) && d == map[alias := Scalar(v), c := Scalar(w)]
    ensures Fold(d, x, [alias, c]) == map[c := List([Scalar(v), Scalar(w)])]
  {
    assert [alias, c][..1] == [alias] && [alias][..0] == [];
    SetOne(map[], [c], Scalar(v));
    assert Fold(d, x, [alias]) == map[c := Scalar(v)];
    SetOne(map[c := Scalar(v)], [c], Scalar(w));
  }
}
