/**
 The text of the two encodings: keys written with brackets or with dots, percent-coded, joined into a query
 string; and the proof that parsing and expanding the string as the view does gives the document's tree.
 */
module JuliaRoundTrip {
  import opened JuliaParser
  import opened JuliaInPlace
  import opened JuliaAliases
  import opened JuliaPrinter
  import opened Wrappers
  import Text
  import FiniteSets

  // ---------------------------------------------------------------- keys

  /** A component that survives both encodings. */
  ghost predicate Simple(c: string) {
    c != "" && '.' !in c && '[' !in c && ']' !in c && Text.Strip(c) == c
  }

  /** Every dictionary key of the document, however deep, is simple. */
  ghost predicate SimpleKeys(doc: Document) {
    !doc.Plain? ==> forall k :: k in Parts(doc) ==> (doc.Object? ==> Simple(k)) && SimpleKeys(Parts(doc)[k])
  }

  function Subscripts(rest: Path): string {
    if rest == [] then "" else "[" + rest[0] + "]" + Subscripts(rest[1..])
  }

  function BracketKey(p: Path): string
    requires p != []
  {
    p[0] + Subscripts(p[1..])
  }

  function DotKey(p: Path): string
    requires p != []
  {
    Text.Join(p, '.')
  }

  ghost predicate SimplePath(p: Path) {
    p != [] && forall i :: 0 <= i < |p| ==> Simple(p[i])
  }

  lemma StripLeftOfDigits(s: string)
    requires Text.AllDigits(s)
    ensures Text.StripLeft(s, Text.IsSpace) == s && Text.StripRight(s, Text.IsSpace) == s
  {
    Text.StripLeftNothing(s, Text.IsSpace);
    Text.StripRightNothing(s, Text.IsSpace);
  }

  lemma DecimalSimple(n: nat)
    ensures Simple(Text.Decimal(n))
  {
    var s := Text.Decimal(n);
    StripLeftOfDigits(s);
    forall c | c in s ensures Text.IsDigit(c) {
      var i :| 0 <= i < |s| && s[i] == c;
    }
  }

  lemma PartSimple(doc: Document, k: string)
    requires SimpleKeys(doc) && !doc.Plain? && k in Parts(doc)
    ensures Simple(k) && SimpleKeys(Parts(doc)[k])
  {
    if doc.Array? {
      Text.DecimalsDiffer();
      var i :| 0 <= i < |doc.elements| && Text.Decimal(i) == k;
      DecimalSimple(i);
    }
  }

  lemma {:induction false} LeafPathsSimple(doc: Document, p: Path)
    requires SimpleKeys(doc) && LeafAt(doc, p).Some?
    ensures forall i :: 0 <= i < |p| ==> Simple(p[i])
    decreases doc
  {
    if !doc.Plain? {
      PartSimple(doc, p[0]);
      var k := p[0];
      LeafPathsSimple(Parts(doc)[k], p[1..]);
      assert forall i :: 0 < i < |p| ==> p[i] == p[1..][i - 1];
    }
  }

  lemma {:induction false} StripAllSimple(parts: seq<string>)
    requires forall i :: 0 <= i < |parts| ==> Simple(parts[i])
    ensures StripAll(parts) == parts
  {
    if parts != [] {
      var first, rest := parts[0], parts[1..];
      assert Simple(first);
      forall i | 0 <= i < |rest| ensures Simple(rest[i]) {
        assert rest[i] == parts[i + 1];
      }
      StripAllSimple(rest);
      Text.FirstAndRest(parts);
    }
  }

  /** A dotted key splits into its components. */
  lemma DotKeyBack(p: Path)
    requires SimplePath(p)
    ensures DotComponents(DotKey(p)) == p
  {
    Text.SplitJoin(p, '.');
    StripAllSimple(p);
  }

  function Closed(rest: Path): seq<string> {
    if rest == [] then [] else [rest[0] + "]"] + Closed(rest[1..])
  }

  lemma {:induction false} SubscriptsJoin(rest: Path)
    requires rest != []
    ensures Closed(rest) != [] && Subscripts(rest) == "[" + Text.Join(Closed(rest), '[')
  {
    if |rest| > 1 {
      SubscriptsJoin(rest[1..]);
      assert Closed(rest)[1..] == Closed(rest[1..]);
    } else {
      assert rest[1..] == [];
    }
  }

  lemma {:induction false} ClosedFree(rest: Path)
    requires forall i :: 0 <= i < |rest| ==> Simple(rest[i])
    ensures forall i :: 0 <= i < |Closed(rest)| ==> '[' !in Closed(rest)[i]
  {
    if rest != [] {
      ClosedFree(rest[1..]);
    }
  }

  lemma {:induction false} ClosedBack(rest: Path)
    requires forall i :: 0 <= i < |rest| ==> rest[i] != ""
    ensures Subkeys(Closed(rest)) == Some((rest, false))
  {
    if rest != [] {
      ClosedBack(rest[1..]);
      OneSubkey(rest[0], Closed(rest[1..]));
      assert [rest[0]] + rest[1..] == rest;
    }
  }

  lemma OneSubkey(c: string, pieces: seq<string>)
    requires c != "" && Subkeys(pieces).Some?
    ensures Subkeys([c + "]"] + pieces) == Some(([c] + Subkeys(pieces).value.0, Subkeys(pieces).value.1))
  {
    var all := [c + "]"] + pieces;
    assert all[0] == c + "]" && all[1..] == pieces;
    assert (c + "]")[..|c + "]"| - 1] == c;
    assert |all[0]| >= 2;
  }

  lemma {:induction false} BracketFreeOf(c: string, rest: string)
    requires '[' !in c && ']' !in c && (rest == "" || rest[0] == '[')
    ensures BracketFree(c + rest) == |c|
  {
    if c == "" {
      assert c + rest == rest;
    } else {
      assert (c + rest)[1..] == c[1..] + rest;
      BracketFreeOf(c[1..], rest);
    }
  }

  lemma ComponentsOf(key: string, n: nat, subkeys: (Path, bool))
    requires 0 < n == BracketFree(key) < |key| && key[|key| - 1] != '\n' && key[n] == '['
    requires Subkeys(Text.Split(key[n..][1..], '[')) == Some(subkeys)
    ensures BracketComponents(key) == Some(([key[..n]] + subkeys.0, subkeys.1))
  {
  }

  /** Subscripts without their first bracket split into what they enclose. */
  lemma SubscriptsBack(rest: Path)
    requires rest != [] && forall i :: 0 <= i < |rest| ==> Simple(rest[i])
    ensures Subscripts(rest) != "" && Subscripts(rest)[0] == '['
    ensures Subkeys(Text.Split(Subscripts(rest)[1..], '[')) == Some((rest, false))
  {
    SubscriptsJoin(rest);
    ClosedFree(rest);
    ClosedBack(rest);
    Text.SplitJoin(Closed(rest), '[');
    assert Subscripts(rest)[1..] == Text.Join(Closed(rest), '[');
  }

  lemma BracketsAfter(c: string, rest: Path)
    requires Simple(c) && rest != [] && forall i :: 0 <= i < |rest| ==> Simple(rest[i])
    ensures BracketComponents(c + Subscripts(rest)) == Some(([c] + rest, false))
  {
    var tail := Subscripts(rest);
    var key := c + tail;
    SubscriptsBack(rest);
    SubscriptsClose(rest);
    BracketFreeOf(c, tail);
    assert key[..|c|] == c && key[|c|..] == tail;
    assert key[|key| - 1] == tail[|tail| - 1];
    ComponentsOf(key, |c|, (rest, false));
  }

  /** A bracketed key splits into its components. */
  lemma BracketKeyBack(p: Path)
    requires SimplePath(p)
    ensures BracketComponents(BracketKey(p)) == Some((p, false))
  {
    var c, rest := p[0], p[1..];
    Text.FirstAndRest(p);
    forall i | 0 <= i < |rest| ensures Simple(rest[i]) {
      assert rest[i] == p[i + 1];
    }
    BracketsFrom(c, rest);
  }

  lemma BracketsFrom(c: string, rest: Path)
    requires Simple(c) && forall i :: 0 <= i < |rest| ==> Simple(rest[i])
    ensures BracketComponents(c + Subscripts(rest)) == Some(([c] + rest, false))
  {
    if rest == [] {
      assert c + Subscripts(rest) == c && [c] + rest == [c];
      BracketComponentAlone(c);
    } else {
      BracketsAfter(c, rest);
    }
  }

  lemma {:induction false} SubscriptsClose(rest: Path)
    requires rest != []
    ensures Subscripts(rest) != "" && Subscripts(rest)[|Subscripts(rest)| - 1] == ']'
  {
    if |rest| > 1 {
      SubscriptsClose(rest[1..]);
    } else {
      assert rest[1..] == [];
    }
  }

  // ---------------------------------------------------------------- the query string

  datatype Style = Bracketed | Dotted

  function KeyFor(style: Style, p: Path): string
    requires p != []
  {
    if style.Bracketed? then BracketKey(p) else DotKey(p)
  }

  /** Percent coding: decoding undoes it, and coded texts hold no separator. */
  ghost predicate IsCodec(encode: string -> string, decode: string -> string) {
    && (forall s :: decode(encode(s)) == s && '&' !in encode(s) && '=' !in encode(s))
    && decode("") == ""
  }

  type Param = (string, string)

  /** The coded parameters. */
  function Coded(params: seq<Param>, encode: string -> string): (coded: seq<string>)
    ensures |coded| == |params|
    ensures forall i :: 0 <= i < |params| ==> coded[i] == encode(params[i].0) + "=" + encode(params[i].1)
  {
    if params == [] then []
    else
      var last := params[|params| - 1];
      Coded(params[..|params| - 1], encode) + [encode(last.0) + "=" + encode(last.1)]
  }

  function Query(params: seq<Param>, encode: string -> string): string {
    if params == [] then "" else Text.Join(Coded(params, encode), '&')
  }

  lemma {:induction false} CutAt(name: string, sep: char, rest: string)
    requires sep !in name
    ensures CutOnce(name + [sep] + rest, sep) == (name, Some(rest))
  {
    var s := name + [sep] + rest;
    if name == "" {
      assert s[1..] == rest;
    } else {
      assert s[0] == name[0] && s[1..] == name[1..] + [sep] + rest;
      CutAt(name[1..], sep, rest);
      assert [name[0]] + name[1..] == name;
    }
  }

  lemma {:induction false} CutNothing(name: string, sep: char)
    requires sep !in name
    ensures CutOnce(name, sep) == (name, None)
  {
    if name != "" {
      CutNothing(name[1..], sep);
      assert [name[0]] + name[1..] == name;
    }
  }

  lemma StripNothing(s: string, drop: char -> bool)
    requires s != "" && !drop(s[0]) && !drop(s[|s| - 1])
    ensures Text.StripBy(s, drop) == s
  {
  }

  lemma StripLast(s: string, last: char, drop: char -> bool)
    requires s != "" && !drop(s[0]) && !drop(s[|s| - 1]) && drop(last)
    ensures Text.StripBy(s + [last], drop) == s
  {
    var longer := s + [last];
    assert longer[0] == s[0] && longer[|longer| - 1] == last;
    assert Text.StripLeft(longer, drop) == longer;
    assert longer[..|longer| - 1] == s;
    assert Text.StripRight(s, drop) == s;
  }

  lemma ParamWith(name: string, value: string, decode: string -> string)
    requires name != "" && '=' !in name && value != "" && '=' !in value
    ensures ParseParam(name + "=" + value, decode) == (decode(name), decode(value))
  {
    var param := name + ['='] + value;
    assert param == name + "=" + value;
    assert param[0] == name[0] && name[0] in name;
    assert param[|param| - 1] == value[|value| - 1] && value[|value| - 1] in value;
    StripNothing(param, IsEquals);
    CutAt(name, '=', value);
  }

  lemma ParamWithout(name: string, decode: string -> string)
    requires name != "" && '=' !in name
    ensures ParseParam(name + "=" + "", decode) == (decode(name), "")
  {
    var param := name + "=";
    assert name + "=" + "" == param;
    assert param[0] == name[0] && name[0] in name;
    assert param[..|param| - 1] == name;
    assert name[|name| - 1] in name;
    StripLast(name, '=', IsEquals);
    CutNothing(name, '=');
  }

  /** Reading back one parameter. */
  lemma ParamBack(key: string, text: string, encode: string -> string, decode: string -> string)
    requires IsCodec(encode, decode) && key != ""
    ensures encode(key) != "" && ParseParam(encode(key) + "=" + encode(text), decode) == (key, text)
  {
    var name, value := encode(key), encode(text);
    assert decode(name) == key && decode(value) == text;
    if value == "" {
      ParamWithout(name, decode);
    } else {
      ParamWith(name, value, decode);
    }
  }

  ghost predicate IsCodedParam(param: string) {
    param != "" && '&' !in param
  }

  ghost predicate KeysNotEmpty(params: seq<Param>) {
    forall i :: 0 <= i < |params| ==> params[i].0 != ""
  }

  lemma {:induction false} ParamsBack(params: seq<Param>, encode: string -> string, decode: string -> string)
    requires IsCodec(encode, decode) && KeysNotEmpty(params)
    ensures ParseParams(Coded(params, encode), decode) == params
  {
    if params != [] {
      var init, last := params[..|params| - 1], params[|params| - 1];
      assert params == init + [last];
      ParamsBack(init, encode, decode);
      ParamBack(last.0, last.1, encode, decode);
      ParseParamsLast(Coded(init, encode), encode(last.0) + "=" + encode(last.1), decode);
    }
  }

  lemma ParseParamsLast(init: seq<string>, last: string, decode: string -> string)
    ensures ParseParams(init + [last], decode) == ParseParams(init, decode) + [ParseParam(last, decode)]
  {
    assert (init + [last])[..|init|] == init;
  }

  lemma CodedParams(params: seq<Param>, encode: string -> string, decode: string -> string)
    requires IsCodec(encode, decode) && KeysNotEmpty(params)
    ensures forall i :: 0 <= i < |params| ==> IsCodedParam(Coded(params, encode)[i])
  {
  }

  lemma {:induction false} JoinEnds(params: seq<string>)
    requires params != [] && forall i :: 0 <= i < |params| ==> IsCodedParam(params[i])
    ensures var s := Text.Join(params, '&'); s != "" && s[0] != '&' && s[|s| - 1] != '&'
  {
    assert params[0][0] in params[0] && params[0][|params[0]| - 1] in params[0];
    if |params| > 1 {
      JoinEnds(params[1..]);
    }
  }

  /** Reading back the query string. */
  lemma QueryBack(params: seq<Param>, encode: string -> string, decode: string -> string)
    requires IsCodec(encode, decode) && KeysNotEmpty(params)
    ensures ParseQuerystring(Query(params, encode), decode) == if params == [] then [("", "")] else params
  {
    if params == [] {
      assert Text.Split("", '&') == [""] && [""][..0] == [];
      assert ParseParam("", decode) == ("", "");
      assert ParseParams([""], decode) == [("", "")];
    } else {
      var coded := Coded(params, encode);
      ParamsBack(params, encode, decode);
      CodedParams(params, encode, decode);
      JoinEnds(coded);
      StripNothing(Text.Join(coded, '&'), IsAmpersand);
      Text.SplitJoin(coded, '&');
    }
  }

  // ---------------------------------------------------------------- the parsed dictionary

  ghost predicate KeysDiffer(params: seq<Param>) {
    forall i, j :: 0 <= i < j < |params| ==> params[i].0 != params[j].0
  }

  /** The dictionary of parameters with different keys. */
  lemma {:induction false} ParsedHolds(params: seq<Param>)
    requires KeysNotEmpty(params) && KeysDiffer(params)
    ensures var items := AddParams(map[], params);
            && (forall i :: 0 <= i < |params| ==> params[i].0 in items && items[params[i].0] == Scalar(params[i].1))
            && (forall k :: k in items ==> exists i :: 0 <= i < |params| && params[i].0 == k)
  {
    if params != [] {
      var n := |params| - 1;
      var init, last := params[..n], params[n];
      assert forall i :: 0 <= i < n ==> init[i] == params[i];
      ParsedHolds(init);
      var items := AddParams(map[], init);
      assert last.0 !in items;
      assert AddParams(map[], params) == items[last.0 := Scalar(last.1)];
    }
  }

  // ---------------------------------------------------------------- the view

  /** The expansion the view selects. */
  function Choice(items: Tree): Expansion {
    if exists k :: k in items && '.' in k then DOTS else BRACKETS
  }

  /** A copy of the keys, in the order the dictionary happens to have. */
  method KeysInSomeOrder(d: Tree) returns (keys: seq<string>)
    ensures ListsKeys(keys, d)
  {
    keys := [];
    var todo := d.Keys;
    while todo != {}
      invariant FiniteSets.Distinct(keys)
      invariant forall k :: k in d <==> k in keys || k in todo
      invariant forall k :: k in keys ==> k !in todo
      decreases |todo|
    {
      var k := FiniteSets.Pick(todo);
      todo := todo - {k};
      keys := keys + [k];
    }
  }

  /** Parse a request body and expand it with the method its keys call for. */
  method DecodeBody(body: string, decode: string -> string) returns (tree: Tree)
    ensures var items := AddParams(map[], ParseQuerystring(body, decode));
            exists keys :: ListsKeys(keys, items) && tree == InPlace(items, Choice(items), keys)
  {
    var parser := new JuliaQueryString();
    parser.Parse(body, decode);
    var keys := KeysInSomeOrder(parser.items);
    parser.Expand(Choice(parser.items), keys);
    tree := parser.items;
  }

  // ---------------------------------------------------------------- the round trip

  predicate Printable(order: seq<Path>, leaves: map<Path, string>) {
    forall i :: 0 <= i < |order| ==> order[i] != [] && order[i] in leaves
  }

  /** The parameters printed for the plain values, in the given order. */
  function ParamsFor(style: Style, order: seq<Path>, leaves: map<Path, string>): (params: seq<Param>)
    requires Printable(order, leaves)
    ensures |params| == |order|
    ensures forall i :: 0 <= i < |order| ==> params[i] == (KeyFor(style, order[i]), leaves[order[i]])
  {
    if order == [] then []
    else
      var last := order[|order| - 1];
      ParamsFor(style, order[..|order| - 1], leaves) + [(KeyFor(style, last), leaves[last])]
  }

  /** The expansion reads the path off the path's key and sets a text as it is. */
  ghost predicate ReadsBack(x: Expansion, style: Style, p: Path)
    requires p != []
  {
    x.target(KeyFor(style, p)) == p && forall t :: x.spread(KeyFor(style, p), Scalar(t)) == [Scalar(t)]
  }

  lemma BracketsReadBack(p: Path)
    requires SimplePath(p)
    ensures ReadsBack(BRACKETS, Bracketed, p) && KeyFor(Bracketed, p) != ""
  {
    BracketKeyBack(p);
    assert Simple(p[0]);
  }

  lemma DotKeyFacts(p: Path)
    requires p != [] && p[0] != ""
    ensures DotKey(p) != ""
    ensures |p| > 1 ==> '.' in DotKey(p)
    ensures |p| == 1 ==> DotKey(p) == p[0]
  {
    if |p| > 1 {
      assert DotKey(p) == p[0] + ['.'] + Text.Join(p[1..], '.');
      assert DotKey(p)[|p[0]|] == '.';
    }
  }

  lemma DotsReadBack(p: Path)
    requires SimplePath(p)
    ensures ReadsBack(DOTS, Dotted, p) && KeyFor(Dotted, p) != ""
  {
    DotKeyBack(p);
    assert Simple(p[0]);
    DotKeyFacts(p);
  }

  lemma SingleReadBack(p: Path)
    requires SimplePath(p) && '.' !in DotKey(p)
    ensures ReadsBack(BRACKETS, Dotted, p)
  {
    assert Simple(p[0]);
    DotKeyFacts(p);
    assert p == [p[0]];
    BracketComponentAlone(p[0]);
  }

  lemma {:induction false} NoDotsInBrackets(rest: Path)
    requires forall i :: 0 <= i < |rest| ==> Simple(rest[i])
    ensures '.' !in Subscripts(rest)
  {
    if rest != [] {
      NoDotsInBrackets(rest[1..]);
    }
  }

  ghost predicate AllSimple(order: seq<Path>) {
    forall i :: 0 <= i < |order| ==> SimplePath(order[i])
  }

  lemma ParamKeys(style: Style, order: seq<Path>, leaves: map<Path, string>)
    requires Printable(order, leaves) && AllSimple(order) && FiniteSets.Distinct(order)
    ensures KeysNotEmpty(ParamsFor(style, order, leaves)) && KeysDiffer(ParamsFor(style, order, leaves))
  {
    forall i | 0 <= i < |order|
      ensures KeyFor(style, order[i]) != "" && ReadsBack(if style.Bracketed? then BRACKETS else DOTS, style, order[i])
    {
      if style.Bracketed? { BracketsReadBack(order[i]); } else { DotsReadBack(order[i]); }
    }
  }

  /** Some path is printed as this key. */
  ghost predicate IsPrinted(style: Style, order: seq<Path>, k: string)
    requires AllSimple(order)
  {
    exists j :: 0 <= j < |order| && KeyFor(style, order[j]) == k
  }

  ghost predicate KeysArePrinted(style: Style, order: seq<Path>, items: Tree)
    requires AllSimple(order)
  {
    forall k :: k in items <==> IsPrinted(style, order, k)
  }

  /** The view's choice suits the style the dictionary was printed in. */
  lemma ChoiceSuits(style: Style, order: seq<Path>, items: Tree, i: nat)
    requires AllSimple(order) && i < |order|
    requires KeysArePrinted(style, order, items)
    ensures ReadsBack(Choice(items), style, order[i])
  {
    if style.Dotted? {
      assert IsPrinted(Dotted, order, DotKey(order[i]));
      ChoiceOfDotted(items, order[i]);
    } else {
      ChoiceOfBracketed(order, items);
      BracketsReadBack(order[i]);
    }
  }

  lemma ChoiceOfBracketed(order: seq<Path>, items: Tree)
    requires AllSimple(order) && KeysArePrinted(Bracketed, order, items)
    ensures Choice(items) == BRACKETS
  {
    forall k | k in items ensures '.' !in k {
      var j :| 0 <= j < |order| && KeyFor(Bracketed, order[j]) == k;
      NoDotInKey(order[j]);
    }
  }

  lemma ChoiceOfDotted(items: Tree, p: Path)
    requires SimplePath(p) && DotKey(p) in items
    ensures ReadsBack(Choice(items), Dotted, p)
  {
    if '.' in DotKey(p) || Choice(items) == DOTS {
      DotsReadBack(p);
    } else {
      SingleReadBack(p);
    }
  }

  lemma NoDotInKey(p: Path)
    requires SimplePath(p)
    ensures '.' !in BracketKey(p)
  {
    RestSimple(p);
    NoDotAround(p[0], p[1..]);
  }

  lemma NoDotAround(c: string, rest: Path)
    requires Simple(c) && forall i :: 0 <= i < |rest| ==> Simple(rest[i])
    ensures '.' !in c + Subscripts(rest)
  {
    NoDotsInBrackets(rest);
    NeitherHas(c, Subscripts(rest), '.');
  }

  lemma RestSimple(p: Path)
    requires SimplePath(p)
    ensures forall i :: 0 <= i < |p[1..]| ==> Simple(p[1..][i])
  {
  }

  lemma NeitherHas(a: string, b: string, c: char)
    requires c !in a && c !in b
    ensures c !in a + b
  {
  }

  lemma PrintedHolds(style: Style, order: seq<Path>, leaves: map<Path, string>, items: Tree)
    requires Printable(order, leaves) && AllSimple(order) && ListsLeaves(order, leaves)
    requires items == AddParams(map[], ParamsFor(style, order, leaves))
    ensures Holds(items, Choice(items), leaves)
  {
    var params, x := ParamsFor(style, order, leaves), Choice(items);
    ParamKeys(style, order, leaves);
    ParsedHolds(params);
    forall k ensures k in items <==> IsPrinted(style, order, k) {
      if IsPrinted(style, order, k) {
        var j :| 0 <= j < |order| && KeyFor(style, order[j]) == k;
        assert params[j].0 == k;
      }
      if k in items {
        var j :| 0 <= j < |params| && params[j].0 == k;
        assert KeyFor(style, order[j]) == k;
      }
    }
    forall i | 0 <= i < |order| ensures ReadsBack(x, style, order[i]) {
      ChoiceSuits(style, order, items, i);
    }
    HoldsFromKeys(style, order, leaves, items, x);
  }

  lemma HoldsFromKeys(style: Style, order: seq<Path>, leaves: map<Path, string>, items: Tree, x: Expansion)
    requires Printable(order, leaves) && AllSimple(order) && ListsLeaves(order, leaves)
    requires KeysArePrinted(style, order, items)
    requires forall i :: 0 <= i < |order| ==> items[KeyFor(style, order[i])] == Scalar(leaves[order[i]])
    requires forall i :: 0 <= i < |order| ==> ReadsBack(x, style, order[i])
    ensures Holds(items, x, leaves)
  {
    forall p | p in leaves ensures exists k :: k in items && x.target(k) == p {
      var i :| 0 <= i < |order| && order[i] == p;
      assert IsPrinted(style, order, KeyFor(style, order[i])) && ReadsBack(x, style, order[i]);
    }
    forall k | k in items ensures Printed(style, order, leaves, items, x, k) {
      PrintedKey(style, order, leaves, items, x, k);
    }
    HoldsWhenPrinted(style, order, leaves, items, x);
  }

  lemma HoldsWhenPrinted(style: Style, order: seq<Path>, leaves: map<Path, string>, items: Tree, x: Expansion)
    requires Printable(order, leaves) && forall k :: k in items ==> Printed(style, order, leaves, items, x, k)
    requires forall p :: p in leaves ==> exists k :: k in items && x.target(k) == p
    ensures Holds(items, x, leaves)
  {
    forall k | k in items
      ensures x.target(k) in leaves && items[k] == Scalar(leaves[x.target(k)]) && x.spread(k, items[k]) == [items[k]]
      ensures x.target(k) != [] && KeyFor(style, x.target(k)) == k
    {
      assert Printed(style, order, leaves, items, x, k);
    }
  }

  /** Some path's key, which reads back as that path and holds its value. */
  ghost predicate Printed(style: Style, order: seq<Path>, leaves: map<Path, string>, items: Tree, x: Expansion,
                          k: string)
    requires Printable(order, leaves) && k in items
  {
    exists i :: 0 <= i < |order| && KeyFor(style, order[i]) == k && x.target(k) == order[i]
                && items[k] == Scalar(leaves[order[i]]) && x.spread(k, items[k]) == [items[k]]
  }

  lemma PrintedKey(style: Style, order: seq<Path>, leaves: map<Path, string>, items: Tree, x: Expansion, k: string)
    requires Printable(order, leaves) && AllSimple(order) && IsPrinted(style, order, k) && k in items
    requires forall i :: 0 <= i < |order| ==> KeyFor(style, order[i]) in items
    requires forall i :: 0 <= i < |order| ==> items[KeyFor(style, order[i])] == Scalar(leaves[order[i]])
    requires forall i :: 0 <= i < |order| ==> ReadsBack(x, style, order[i])
    ensures Printed(style, order, leaves, items, x, k)
  {
    var i :| 0 <= i < |order| && KeyFor(style, order[i]) == k;
    assert ReadsBack(x, style, order[i]);
  }

  ghost predicate ListsLeaves(order: seq<Path>, leaves: map<Path, string>) {
    FiniteSets.Distinct(order) && forall p :: p in order <==> p in leaves
  }

  /** The dictionary parsed from what is printed. */
  function ParsedPrint(style: Style, order: seq<Path>, leaves: map<Path, string>,
                       encode: string -> string, decode: string -> string): Tree
    requires Printable(order, leaves)
  {
    AddParams(map[], ParseQuerystring(Query(ParamsFor(style, order, leaves), encode), decode))
  }

  /**
   The round trip: print a document in either style with its parameters in any order, parse the query string
   and expand it as the view does, visiting the keys in any order, and the document's tree comes back.
   */
  lemma RoundTrip(doc: Document, style: Style, leaves: map<Path, string>, order: seq<Path>,
                  encode: string -> string, decode: string -> string, keys: seq<string>)
    requires doc.Object? && NoEmptyParts(doc) && SimpleKeys(doc)
    requires IsLeaves(leaves, doc) && ListsLeaves(order, leaves) && Printable(order, leaves)
    requires IsCodec(encode, decode)
    requires ListsKeys(keys, ParsedPrint(style, order, leaves, encode, decode))
    ensures var items := ParsedPrint(style, order, leaves, encode, decode);
            Dict(InPlace(items, Choice(items), keys)) == AsTree(doc)
  {
    PathsSimple(doc, leaves, order);
    ParamKeys(style, order, leaves);
    ParsedItems(ParamsFor(style, order, leaves), encode, decode);
    PrintedTree(doc, style, leaves, order, keys, ParsedPrint(style, order, leaves, encode, decode));
  }

  lemma PrintedTree(doc: Document, style: Style, leaves: map<Path, string>, order: seq<Path>, keys: seq<string>,
                    items: Tree)
    requires doc.Object? && NoEmptyParts(doc) && IsLeaves(leaves, doc)
    requires Printable(order, leaves) && AllSimple(order) && ListsLeaves(order, leaves)
    requires items == AddParams(map[], ParamsFor(style, order, leaves)) && ListsKeys(keys, items)
    ensures Dict(InPlace(items, Choice(items), keys)) == AsTree(doc)
  {
    PrintedHolds(style, order, leaves, items);
    BothRegular();
    DecodedTree(doc, leaves, items, Choice(items), keys);
  }

  lemma ParsedItems(params: seq<Param>, encode: string -> string, decode: string -> string)
    requires IsCodec(encode, decode) && KeysNotEmpty(params)
    ensures AddParams(map[], ParseQuerystring(Query(params, encode), decode)) == AddParams(map[], params)
  {
    QueryBack(params, encode, decode);
    assert [("", "")][..0] == [];
  }

  lemma PathsSimple(doc: Document, leaves: map<Path, string>, order: seq<Path>)
    requires SimpleKeys(doc) && IsLeaves(leaves, doc) && Printable(order, leaves)
    ensures AllSimple(order)
  {
    forall i | 0 <= i < |order| ensures SimplePath(order[i]) {
      assert Lookup(leaves, order[i]) == LeafAt(doc, order[i]);
      LeafPathsSimple(doc, order[i]);
    }
  }
}
