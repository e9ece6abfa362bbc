/**
 The Julia query-string parser: a flat dictionary of parameters is expanded into nested dictionaries in place,
 each key being deleted and set again under its components while the keys still to come are in the way.
 */
module JuliaParser {
  import opened Wrappers
  import Text
  import FiniteSets

  datatype Value =
    | Scalar(text: string)
    | List(items: seq<Value>)
    | Dict(entries: Tree)

  type Tree = map<string, Value>
  type Path = seq<string>

  // ---------------------------------------------------------------- setting an item

  /** What an occupied slot holds after a value is set: lists grow, texts become lists, dictionaries stay. */
  function Combine(held: Value, value: Value): Value {
    match held
    case List(items) => List(items + if value.List? then value.items else [value])
    case Dict(_) => held
    case Scalar(_) => List([held, value])
  }

  /** Set a value at a path; whatever is not a dictionary on the way is replaced by an empty one. */
  function SetItem(d: Tree, path: Path, value: Value): Tree
    requires path != []
    decreases |path|
  {
    var key := path[0];
    if |path| == 1 then
      d[key := if key in d then Combine(d[key], value) else value]
    else
      var sub := if key in d && d[key].Dict? then d[key].entries else map[];
      d[key := Dict(SetItem(sub, path[1..], value))]
  }

  function SetItems(d: Tree, path: Path, values: seq<Value>): Tree
    requires path != []
  {
    if values == [] then d
    else SetItem(SetItems(d, path, values[..|values| - 1]), path, values[|values| - 1])
  }

  // ---------------------------------------------------------------- components of a key

  function StripAll(parts: seq<string>): seq<string> {
    if parts == [] then []
    else
      var first, rest := Text.Strip(parts[0]), StripAll(parts[1..]);
      if first == "" then rest else [first] + rest
  }

  /** The components of a dotted key; possibly none. */
  function DotComponents(key: string): Path {
    StripAll(Text.Split(key, '.'))
  }

  /** The length of the part before the first bracket of either kind. */
  function BracketFree(s: string): (n: nat)
    ensures n <= |s| && forall i :: 0 <= i < n ==> s[i] != '[' && s[i] != ']'
    ensures n < |s| ==> s[n] == '[' || s[n] == ']'
  {
    if s == "" || s[0] == '[' || s[0] == ']' then 0 else 1 + BracketFree(s[1..])
  }

  /** One bracketed piece: what follows its opening bracket up to the next one, the closing bracket included. */
  predicate IsSubkey(piece: string) {
    |piece| >= 2 && piece[|piece| - 1] == ']'
  }

  /** The subkeys of all pieces but a final empty pair of brackets, and whether there is such a pair. */
  function Subkeys(pieces: seq<string>): Option<(Path, bool)> {
    if pieces == [] then Some(([], false))
    else if pieces == ["]"] then Some(([], true))
    else if !IsSubkey(pieces[0]) then None
    else
      var rest := Subkeys(pieces[1..]);
      if rest.None? then None else Some(([pieces[0][..|pieces[0]| - 1]] + rest.value.0, rest.value.1))
  }

  /**
   The components of a bracketed key and whether it ends in an empty pair of brackets; None when the key
   does not have that form.
   */
  function BracketComponents(key: string): Option<(Path, bool)> {
    var n := BracketFree(key);
    var tail := if n < |key| && key[|key| - 1] == '\n' then key[n..|key| - 1] else key[n..];
    if n == 0 then None
    else if tail == "" then Some(([key[..n]], false))
    else if tail[0] != '[' then None
    else
      var subkeys := Subkeys(Text.Split(tail[1..], '['));
      if subkeys.None? then None else Some(([key[..n]] + subkeys.value.0, subkeys.value.1))
  }

  /** The components of a bracketed key; none if the key does not match. */
  function BracketPath(key: string): Path {
    var matched := BracketComponents(key);
    if matched.None? then [] else matched.value.0
  }

  function WrapAll(values: seq<Value>): seq<Value> {
    if values == [] then [] else WrapAll(values[..|values| - 1]) + [List([values[|values| - 1]])]
  }

  /** The values that are set one after another for a bracketed key. */
  function BracketSpread(key: string, value: Value): seq<Value> {
    var values := if value.List? then value.items else [value];
    var matched := BracketComponents(key);
    if matched.Some? && matched.value.1 then WrapAll(values) else values
  }

  /** A way of expanding: where the value of a key goes, an empty path dropping it, and what is set there. */
  datatype Expansion = Expansion(target: string -> Path, spread: (string, Value) -> seq<Value>)

  const DOTS := Expansion(DotComponents, (key, value) => [value])
  const BRACKETS := Expansion(BracketPath, BracketSpread)

  // ---------------------------------------------------------------- in place, and as a fold

  function SetSpread(d: Tree, x: Expansion, key: string, value: Value): Tree {
    if x.target(key) == [] then d else SetItems(d, x.target(key), x.spread(key, value))
  }

  /** The dictionary after one key has been deleted and set again under its components. */
  function Step(d: Tree, x: Expansion, key: string): Tree
    requires key in d
  {
    SetSpread(d - {key}, x, key, d[key])
  }

  /** The dictionary after some keys have been deleted and set again, one after another. */
  function InPlace(d: Tree, x: Expansion, keys: seq<string>): Tree {
    if keys == [] then d
    else
      var before, key := InPlace(d, x, keys[..|keys| - 1]), keys[|keys| - 1];
      if key in before then Step(before, x, key) else before
  }

  /** The same values set into an empty dictionary. */
  function Fold(d: Tree, x: Expansion, keys: seq<string>): Tree
    requires forall i :: 0 <= i < |keys| ==> keys[i] in d
  {
    if keys == [] then map[]
    else
      var key := keys[|keys| - 1];
      SetSpread(Fold(d, x, keys[..|keys| - 1]), x, key, d[key])
  }

  /** The keys of a dictionary in some order. */
  ghost predicate ListsKeys(keys: seq<string>, d: Tree) {
    FiniteSets.Distinct(keys) && forall k :: k in keys <==> k in d
  }

  // ---------------------------------------------------------------- the raw query string

  /** Cut at the first occurrence of a character, if there is one. */
  function CutOnce(s: string, sep: char): (string, Option<string>) {
    if s == "" then ("", None)
    else if s[0] == sep then ("", Some(s[1..]))
    else
      var (head, tail) := CutOnce(s[1..], sep);
      ([s[0]] + head, tail)
  }

  predicate IsEquals(c: char) {
    c == '='
  }

  predicate IsAmpersand(c: char) {
    c == '&'
  }

  function ParseParam(param: string, decode: string -> string): (string, string) {
    var (name, value) := CutOnce(Text.StripBy(param, IsEquals), '=');
    (decode(name), if value.Some? then decode(value.value) else "")
  }

  function ParseParams(params: seq<string>, decode: string -> string): seq<(string, string)> {
    if params == [] then []
    else ParseParams(params[..|params| - 1], decode) + [ParseParam(params[|params| - 1], decode)]
  }

  /** The parameters of a query string, in order, decoded. */
  function ParseQuerystring(query: string, decode: string -> string): seq<(string, string)> {
    ParseParams(Text.Split(Text.StripBy(query, IsAmpersand), '&'), decode)
  }

  /** Add a parameter: repeated keys collect their values in a list; empty keys are skipped. */
  function AddParam(d: Tree, param: (string, string)): Tree {
    var (name, value) := param;
    if name == "" then d
    else if name !in d then d[name := Scalar(value)]
    else if d[name].List? then d[name := List(d[name].items + [Scalar(value)])]
    else d[name := List([d[name], Scalar(value)])]
  }

  function AddParams(d: Tree, params: seq<(string, string)>): Tree {
    if params == [] then d else AddParam(AddParams(d, params[..|params| - 1]), params[|params| - 1])
  }

  lemma AddParamsNext(d: Tree, params: seq<(string, string)>, i: nat)
    requires i < |params|
    ensures AddParams(d, params[..i + 1]) == AddParam(AddParams(d, params[..i]), params[i])
  {
    assert params[..i + 1][..i] == params[..i];
  }

  class JuliaQueryString {
    var items: Tree

    constructor ()
      ensures items == map[]
    {
      items := map[];
    }

    /** Add the parameters of a query string. */
    method Parse(query: string, decode: string -> string)
      modifies this
      ensures items == AddParams(old(items), ParseQuerystring(query, decode))
    {
      AddAll(ParseQuerystring(query, decode));
    }

    method AddAll(params: seq<(string, string)>)
      modifies this
      ensures items == AddParams(old(items), params)
    {
      var i := 0;
      Text.EmptyPrefix(params);
      while i < |params|
        invariant 0 <= i <= |params|
        invariant items == AddParams(old(items), params[..i])
      {
        AddParamsNext(old(items), params, i);
        Add(params[i].0, params[i].1);
        i := i + 1;
      }
      Text.FullPrefix(params);
    }

    method Add(name: string, value: string)
      modifies this
      ensures items == AddParam(old(items), (name, value))
    {
      if name == "" { return; }
      if name !in items {
        items := items[name := Scalar(value)];
      } else if items[name].List? {
        items := items[name := List(items[name].items + [Scalar(value)])];
      } else {
        items := items[name := List([items[name], Scalar(value)])];
      }
    }

    /** Set the values of a key one after another. */
    method SetComplexKeyItems(path: Path, values: seq<Value>)
      requires path != []
      modifies this
      ensures items == SetItems(old(items), path, values)
    {
      var i := 0;
      while i < |values|
        invariant 0 <= i <= |values|
        invariant items == SetItems(old(items), path, values[..i])
      {
        items := SetItem(items, path, values[i]);
        assert values[..i + 1][..i] == values[..i];
        i := i + 1;
      }
      assert values[..|values|] == values;
    }

    /** Delete one key and set its value again under its components. */
    method ExpandKey(x: Expansion, key: string)
      requires key in items
      modifies this
      ensures items == Step(old(items), x, key)
      ensures old(items).Keys - {key} <= items.Keys
    {
      var value := items[key];
      items := items - {key};
      ghost var without := items;
      // a key without components is dropped for good
      if x.target(key) != [] {
        SetComplexKeyItems(x.target(key), x.spread(key, value));
        SetItemsKeeps(without, x.target(key), x.spread(key, value));
      }
    }

    /** Expand every key in place, visiting a copy of the keys in the given order. */
    method Expand(x: Expansion, dictKeys: seq<string>)
      requires ListsKeys(dictKeys, items)
      modifies this
      ensures items == InPlace(old(items), x, dictKeys)
    {
      var i := 0;
      assert dictKeys[..0] == [];
      while i < |dictKeys|
        invariant 0 <= i <= |dictKeys|
        invariant items == InPlace(old(items), x, dictKeys[..i])
        invariant forall j :: i <= j < |dictKeys| ==> dictKeys[j] in items
      {
        InPlaceNext(old(items), x, dictKeys, i);
        ghost var before := items;
        ExpandKey(x, dictKeys[i]);
        forall j | i < j < |dictKeys| ensures dictKeys[j] in items {
          assert dictKeys[j] != dictKeys[i] && dictKeys[j] in before.Keys - {dictKeys[i]};
        }
        i := i + 1;
      }
      assert dictKeys[..|dictKeys|] == dictKeys;
    }
  }

  lemma InPlaceNext(d: Tree, x: Expansion, keys: seq<string>, i: nat)
    requires i < |keys| && keys[i] in InPlace(d, x, keys[..i])
    ensures InPlace(d, x, keys[..i + 1]) == Step(InPlace(d, x, keys[..i]), x, keys[i])
  {
    assert keys[..i + 1][..i] == keys[..i];
  }

  lemma {:induction false} SetItemsKeeps(d: Tree, path: Path, values: seq<Value>)
    requires path != []
    ensures d.Keys <= SetItems(d, path, values).Keys <= d.Keys + {path[0]}
  {
    if values != [] {
      SetItemsKeeps(d, path, values[..|values| - 1]);
    }
  }
}
