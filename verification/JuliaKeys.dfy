/**
 Which keys, parameters and query strings the parser accepts and what it makes of each: the two key patterns from both
 sides, the values that repeated keys collect, and the separators that are dropped around parameters.
 */
module JuliaKeys {
  import opened Wrappers
  import opened JuliaParser
  import opened JuliaInPlace
  import opened JuliaRoundTrip
  import Text

  // ---------------------------------------------------------------- bracketed keys

  function ListMark(listed: bool): seq<string> {
    if listed then ["]"] else []
  }

  function ListText(listed: bool): string {
    if listed then "[]" else ""
  }

  ghost predicate AreSubkeys(rest: Path) {
    forall i :: 0 <= i < |rest| ==> rest[i] != "" && '[' !in rest[i]
  }

  /**
   A name without brackets, subkeys in brackets and perhaps an empty pair; one line break may follow the brackets.
   A subkey may hold closing brackets.
   */
  ghost predicate IsBracketKey(key: string, name: string, rest: Path, listed: bool) {
    && name != "" && '[' !in name && ']' !in name && AreSubkeys(rest)
    && (key == name + (Subscripts(rest) + ListText(listed))
        || ((rest != [] || listed) && key == name + (Subscripts(rest) + ListText(listed)) + "\n"))
  }

  lemma {:induction false} SubkeysFound(pieces: seq<string>, rest: Path, listed: bool)
    requires Subkeys(pieces) == Some((rest, listed))
    ensures pieces == Closed(rest) + ListMark(listed)
    ensures forall i :: 0 <= i < |rest| ==> rest[i] != ""
  {
    if pieces != [] && pieces != ["]"] {
      SubkeysFound(pieces[1..], rest[1..], listed);
      Text.InitAndLast(pieces[0]);
      Text.FirstAndRest(pieces);
    }
  }

  lemma {:induction false} SubkeysRead(rest: Path, listed: bool)
    requires forall i :: 0 <= i < |rest| ==> rest[i] != ""
    ensures Subkeys(Closed(rest) + ListMark(listed)) == Some((rest, listed))
  {
    if rest != [] {
      SubkeysRead(rest[1..], listed);
      OneSubkey(rest[0], Closed(rest[1..]) + ListMark(listed));
      Text.FirstAndRest(rest);
      assert Closed(rest) + ListMark(listed) == [rest[0] + "]"] + (Closed(rest[1..]) + ListMark(listed));
    }
  }

  lemma JoinedBehind(piece: string, pieces: seq<string>)
    requires pieces != []
    ensures ['['] + Text.Join([piece] + pieces, '[') == ['['] + piece + (['['] + Text.Join(pieces, '['))
  {
    assert ([piece] + pieces)[1..] == pieces;
  }

  lemma OneClosed(c: string)
    ensures "[" + c + "]" == ['['] + (c + "]")
  {
  }

  lemma Empty(rest: Path)
    requires rest == []
    ensures Closed(rest) == [] && Subscripts(rest) == ""
  {
  }

  lemma FirstClosed(rest: Path, listed: bool)
    requires rest != []
    ensures Closed(rest) + ListMark(listed) == [rest[0] + "]"] + (Closed(rest[1..]) + ListMark(listed))
  {
    Text.JoinedTwice([rest[0] + "]"], Closed(rest[1..]), ListMark(listed));
  }

  lemma FirstSubscript(rest: Path, listed: bool)
    requires rest != []
    ensures Subscripts(rest) + ListText(listed)
         == ['['] + (rest[0] + "]") + (Subscripts(rest[1..]) + ListText(listed))
  {
    OneClosed(rest[0]);
    Text.JoinedTwice("[" + rest[0] + "]", Subscripts(rest[1..]), ListText(listed));
  }

  /** Split at their opening brackets, subscripts are the closed subkeys. */
  lemma {:induction false} SubscriptsOf(rest: Path, listed: bool)
    requires rest != [] || listed
    ensures Closed(rest) + ListMark(listed) != []
    ensures Subscripts(rest) + ListText(listed) == ['['] + Text.Join(Closed(rest) + ListMark(listed), '[')
  {
    if rest == [] {
      Empty(rest);
    } else {
      FirstClosed(rest, listed);
      FirstSubscript(rest, listed);
      if |rest| == 1 && !listed {
        Empty(rest[1..]);
      } else {
        SubscriptsOf(rest[1..], listed);
        JoinedBehind(rest[0] + "]", Closed(rest[1..]) + ListMark(listed));
      }
    }
  }

  lemma {:induction false} PiecesFree(rest: Path, listed: bool)
    requires AreSubkeys(rest)
    ensures forall i :: 0 <= i < |Closed(rest) + ListMark(listed)| ==>
      Text.Free((Closed(rest) + ListMark(listed))[i], '[')
  {
    if rest != [] {
      PiecesFree(rest[1..], listed);
      assert Closed(rest) + ListMark(listed) == [rest[0] + "]"] + (Closed(rest[1..]) + ListMark(listed));
    }
  }

  /** A text without the first character, when it is followed by what its pieces join to. */
  lemma TailRead(rest: Path, listed: bool, tail: string)
    requires AreSubkeys(rest) && (rest != [] || listed) && tail == Subscripts(rest) + ListText(listed)
    ensures tail != "" && tail[0] == '[' && tail[|tail| - 1] == ']'
    ensures Subkeys(Text.Split(tail[1..], '[')) == Some((rest, listed))
  {
    SubscriptsOf(rest, listed);
    PiecesFree(rest, listed);
    SubkeysRead(rest, listed);
    Text.SplitJoin(Closed(rest) + ListMark(listed), '[');
    assert tail[1..] == Text.Join(Closed(rest) + ListMark(listed), '[');
    if !listed { SubscriptsClose(rest); }
  }

  lemma TailFound(tail: string, rest: Path, listed: bool)
    requires tail != "" && tail[0] == '[' && Subkeys(Text.Split(tail[1..], '[')) == Some((rest, listed))
    ensures (rest != [] || listed) && AreSubkeys(rest) && tail == Subscripts(rest) + ListText(listed)
  {
    var pieces := Text.Split(tail[1..], '[');
    SubkeysFound(pieces, rest, listed);
    Text.JoinSplit(tail[1..], '[');
    if rest != [] || listed { SubscriptsOf(rest, listed); }
    Text.FirstAndRest(tail);
    ClosedSubkeys(rest, pieces);
  }

  lemma {:induction false} ClosedSubkeys(rest: Path, pieces: seq<string>)
    requires Closed(rest) <= pieces
    requires forall i :: 0 <= i < |pieces| ==> Text.Free(pieces[i], '[')
    ensures forall i :: 0 <= i < |rest| ==> '[' !in rest[i]
  {
    if rest != [] {
      var all := Closed(rest);
      assert all == [rest[0] + "]"] + Closed(rest[1..]);
      assert pieces[0] == rest[0] + "]" && Text.Free(pieces[0], '[');
      assert all[1..] == Closed(rest[1..]);
      ClosedSubkeys(rest[1..], pieces[1..]);
    }
  }

  // ---------------------------------------------------------------- the pattern of bracketed keys

  lemma ComponentsWithTail(key: string, name: string, tail: string, end: string)
    requires name != "" && '[' !in name && ']' !in name && tail != "" && tail[0] == '[' && tail[|tail| - 1] == ']'
    requires (end == "" || end == "\n") && key == name + tail + end
    ensures var subkeys := Subkeys(Text.Split(tail[1..], '['));
            && (subkeys.None? ==> BracketComponents(key).None?)
            && (subkeys.Some? ==> BracketComponents(key) == Some(([name] + subkeys.value.0, subkeys.value.1)))
  {
    assert key == name + (tail + end);
    BracketFreeOf(name, tail + end);
    assert key[..|name|] == name && key[|name|..] == tail + end;
    if end == "\n" {
      assert key[|name|..|key| - 1] == tail;
    } else {
      assert tail + end == tail;
      assert key[|key| - 1] == tail[|tail| - 1];
    }
  }

  lemma BracketKeyRead(key: string, name: string, rest: Path, listed: bool)
    requires IsBracketKey(key, name, rest, listed)
    ensures BracketComponents(key) == Some(([name] + rest, listed))
  {
    var tail := Subscripts(rest) + ListText(listed);
    if rest == [] && !listed {
      assert key == name + "" == name;
      BracketComponentAlone(name);
      assert [name] + rest == [name];
    } else {
      TailRead(rest, listed, tail);
      var end := if key == name + tail then "" else "\n";
      assert key == name + tail + end;
      ComponentsWithTail(key, name, tail, end);
    }
  }

  lemma BracketKeyFound(key: string, name: string, rest: Path, listed: bool)
    requires BracketComponents(key) == Some(([name] + rest, listed))
    ensures IsBracketKey(key, name, rest, listed)
  {
    var n := BracketFree(key);
    var path := [name] + rest;
    assert path[0] == name && path[1..] == rest;
    var end := if n < |key| && key[|key| - 1] == '\n' then "\n" else "";
    var tail := key[n..|key| - |end|];
    assert key == key[..n] + tail + end;
    if tail != "" {
      assert tail == if n < |key| && key[|key| - 1] == '\n' then key[n..|key| - 1] else key[n..];
      TailFound(tail, rest, listed);
    }
  }

  /** A key reads as a name, subkeys and list mark exactly when it is spelled so. */
  lemma BracketKeyIff(key: string, name: string, rest: Path, listed: bool)
    ensures BracketComponents(key) == Some(([name] + rest, listed)) <==> IsBracketKey(key, name, rest, listed)
  {
    if IsBracketKey(key, name, rest, listed) { BracketKeyRead(key, name, rest, listed); }
    if BracketComponents(key) == Some(([name] + rest, listed)) { BracketKeyFound(key, name, rest, listed); }
  }

  lemma {:induction false} AllWrapped(values: seq<Value>)
    ensures |WrapAll(values)| == |values| && forall i :: 0 <= i < |values| ==> WrapAll(values)[i] == List([values[i]])
  {
    if values != [] {
      AllWrapped(values[..|values| - 1]);
    }
  }

  /** What is set for a bracketed key: each value of a list, or the only one, in a list of its own after a list mark. */
  lemma SpreadOf(key: string, name: string, rest: Path, listed: bool, value: Value)
    requires IsBracketKey(key, name, rest, listed)
    ensures var values, spread := if value.List? then value.items else [value], BracketSpread(key, value);
            && |spread| == |values|
            && forall i :: 0 <= i < |values| ==> spread[i] == if listed then List([values[i]]) else values[i]
  {
    BracketKeyRead(key, name, rest, listed);
    AllWrapped(if value.List? then value.items else [value]);
  }

  // ---------------------------------------------------------------- dotted keys

  lemma {:induction false} StripAllAppend(a: seq<string>, b: seq<string>)
    ensures StripAll(a + b) == StripAll(a) + StripAll(b)
  {
    if a == [] {
      assert a + b == b;
    } else {
      assert (a + b)[1..] == a[1..] + b;
      StripAllAppend(a[1..], b);
    }
  }

  lemma StripAllOne(parts: seq<string>)
    requires |parts| == 1
    ensures StripAll(parts) == if Text.Strip(parts[0]) == "" then [] else [Text.Strip(parts[0])]
  {
    assert parts[1..] == [];
  }

  /** A dot separates components, wherever it stands. */
  lemma DotSeparates(a: string, b: string)
    ensures DotComponents(a + ['.'] + b) == DotComponents(a) + DotComponents(b)
  {
    Text.SplitAt(a, '.', b);
    StripAllAppend(Text.Split(a, '.'), Text.Split(b, '.'));
  }

  /** Between dots there is one component without the white space around it, or none when nothing else is there. */
  lemma DotFree(a: string)
    requires '.' !in a
    ensures DotComponents(a) == if Text.Strip(a) == "" then [] else [Text.Strip(a)]
    ensures Text.IsStripped(Text.Strip(a), a)
  {
    Text.SplitPiece(a, '.');
    StripAllOne([a]);
    Text.StripIsStripped(a);
  }

  // ---------------------------------------------------------------- repeated keys

  /** The values that the parameters give a key, in order. */
  function ValuesOf(params: seq<(string, string)>, key: string): seq<string> {
    if params == [] then []
    else
      var (name, value) := params[|params| - 1];
      ValuesOf(params[..|params| - 1], key) + if name == key then [value] else []
  }

  /** One value stands for itself, more are a list of the same values in the same order. */
  ghost predicate Holds(d: Tree, key: string, values: seq<string>) {
    if values == [] then key !in d
    else
      key in d
      && if |values| == 1 then d[key] == Scalar(values[0])
         else d[key].List? && |d[key].items| == |values|
              && forall i :: 0 <= i < |values| ==> d[key].items[i] == Scalar(values[i])
  }

  lemma OneMoreValue(d: Tree, param: (string, string), key: string, values: seq<string>)
    requires key != "" && Holds(d, key, values)
    ensures Holds(AddParam(d, param), key, values + if param.0 == key then [param.1] else [])
  {
    if param.0 != key { assert values + [] == values; }
  }

  /** Every key but the empty one holds its values, and the empty one none. */
  lemma {:induction false} RepeatedKeys(params: seq<(string, string)>, key: string)
    ensures Holds(AddParams(map[], params), key, if key == "" then [] else ValuesOf(params, key))
  {
    if params != [] {
      var init, last := params[..|params| - 1], params[|params| - 1];
      RepeatedKeys(init, key);
      if key != "" { OneMoreValue(AddParams(map[], init), last, key, ValuesOf(init, key)); }
    }
  }

  // ---------------------------------------------------------------- separators around parameters

  /** The text with any number of one sign before and behind it, which it neither starts nor ends with itself. */
  ghost predicate IsPadded(padded: string, s: string, sign: char) {
    && (s == "" || (s[0] != sign && s[|s| - 1] != sign))
    && exists before, after :: OnlyHas(before, sign) && OnlyHas(after, sign) && padded == before + s + after
  }

  ghost predicate OnlyHas(s: string, sign: char) {
    forall c :: c in s ==> c == sign
  }

  lemma PaddingStripped(padded: string, s: string, sign: char, drop: char -> bool)
    requires IsPadded(padded, s, sign) && forall c :: drop(c) <==> c == sign
    ensures Text.StripBy(padded, drop) == Text.StripBy(s, drop)
  {
    var before, after :| OnlyHas(before, sign) && OnlyHas(after, sign) && padded == before + s + after;
    Text.StripPadded(before, s, after, drop);
    Text.StripKept(s, drop);
  }

  /** Equals signs around a parameter change nothing. */
  lemma ParamPadded(padded: string, param: string, decode: string -> string)
    requires IsPadded(padded, param, '=')
    ensures ParseParam(padded, decode) == ParseParam(param, decode)
  {
    PaddingStripped(padded, param, '=', IsEquals);
  }

  /** Ampersands around a query string change nothing. */
  lemma QueryPadded(padded: string, query: string, decode: string -> string)
    requires IsPadded(padded, query, '&')
    ensures ParseQuerystring(padded, decode) == ParseQuerystring(query, decode)
  {
    PaddingStripped(padded, query, '&', IsAmpersand);
  }

  /** A parameter is cut at its first equals sign; its value keeps those inside it. */
  lemma ParamCut(name: string, value: string, decode: string -> string)
    requires name != "" && '=' !in name && value != "" && value[|value| - 1] != '='
    ensures ParseParam(name + ['='] + value, decode) == (decode(name), decode(value))
  {
    var param := name + ['='] + value;
    assert param[0] == name[0] && name[0] in name && param[|param| - 1] == value[|value| - 1];
    StripNothing(param, IsEquals);
    CutAt(name, '=', value);
  }

  lemma ParamAlone(name: string, decode: string -> string)
    requires name != "" && '=' !in name
    ensures ParseParam(name, decode) == (decode(name), "")
  {
    assert name[0] in name && name[|name| - 1] in name;
    StripNothing(name, IsEquals);
    CutNothing(name, '=');
  }
}
