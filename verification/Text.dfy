/** Splitting, joining and decimal numbers, as the packet parser and the query-string parser use them. */
module Text {
  import opened Wrappers

  /** The pieces between occurrences of a separator. */
  function Split(s: string, sep: char): (parts: seq<string>)
    ensures parts != []
  {
    if s == "" then [""]
    else
      var rest := Split(s[1..], sep);
      if s[0] == sep then [""] + rest else [[s[0]] + rest[0]] + rest[1..]
  }

  /** The pieces with a separator between them. */
  function Join(parts: seq<string>, sep: char): string
    requires parts != []
  {
    if |parts| == 1 then parts[0] else parts[0] + [sep] + Join(parts[1..], sep)
  }

  predicate Free(s: string, c: char) {
    c !in s
  }

  lemma {:induction false} SplitPiece(a: string, sep: char)
    requires Free(a, sep)
    ensures Split(a, sep) == [a]
  {
    if a != "" {
      SplitPiece(a[1..], sep);
      assert [a[0]] + a[1..] == a && a[0] != sep;
    }
  }

  lemma {:induction false} SplitFirst(a: string, sep: char, rest: string)
    requires Free(a, sep)
    ensures Split(a + [sep] + rest, sep) == [a] + Split(rest, sep)
  {
    var s := a + [sep] + rest;
    if a == "" {
      assert s[1..] == rest;
    } else {
      SplitFirst(a[1..], sep, rest);
      assert s[1..] == a[1..] + [sep] + rest;
      assert s[0] == a[0] != sep;
      assert Split(s, sep) == [[s[0]] + a[1..]] + Split(rest, sep);
      assert [a[0]] + a[1..] == a;
    }
  }

  /** Splitting undoes joining for pieces free of the separator. */
  lemma {:induction false} SplitJoin(parts: seq<string>, sep: char)
    requires parts != [] && forall i :: 0 <= i < |parts| ==> Free(parts[i], sep)
    ensures Split(Join(parts, sep), sep) == parts
  {
    if |parts| == 1 {
      SplitPiece(parts[0], sep);
    } else {
      SplitJoin(parts[1..], sep);
      SplitFirst(parts[0], sep, Join(parts[1..], sep));
    }
  }

  /** Joining undoes splitting, and no piece holds the separator. */
  lemma {:induction false} JoinSplit(s: string, sep: char)
    ensures Join(Split(s, sep), sep) == s
    ensures forall i :: 0 <= i < |Split(s, sep)| ==> Free(Split(s, sep)[i], sep)
  {
    if s != "" {
      var rest := Split(s[1..], sep);
      JoinSplit(s[1..], sep);
      FirstAndRest(s);
      if s[0] == sep {
        JoinAfterEmpty(rest, sep);
      } else {
        JoinLonger(rest, sep, s[0]);
        assert Free(rest[0], sep);
      }
    }
  }

  lemma JoinAfterEmpty(rest: seq<string>, sep: char)
    requires rest != []
    ensures Join([""] + rest, sep) == [sep] + Join(rest, sep)
  {
    assert ([""] + rest)[1..] == rest;
  }

  lemma JoinLonger(rest: seq<string>, sep: char, c: char)
    requires rest != []
    ensures Join([[c] + rest[0]] + rest[1..], sep) == [c] + Join(rest, sep)
  {
    assert ([[c] + rest[0]] + rest[1..])[1..] == rest[1..];
  }

  lemma SplitSeparator(s: string, sep: char, rest: string)
    requires s == [sep] + rest
    ensures Split(s, sep) == [""] + Split(rest, sep)
  {
    assert s[1..] == rest;
  }

  lemma SplitOther(s: string, sep: char)
    requires s != "" && s[0] != sep
    ensures Split(s, sep) == [[s[0]] + Split(s[1..], sep)[0]] + Split(s[1..], sep)[1..]
  {
  }

  lemma AroundSeparator(a: string, sep: char, b: string)
    requires a != ""
    ensures (a + [sep] + b)[0] == a[0] && (a + [sep] + b)[1..] == a[1..] + [sep] + b
  {
  }

  /** Splitting at one separator and then on both sides is splitting. */
  lemma {:induction false} SplitAt(a: string, sep: char, b: string)
    ensures Split(a + [sep] + b, sep) == Split(a, sep) + Split(b, sep)
  {
    if a == "" {
      SplitSeparator(a + [sep] + b, sep, b);
    } else {
      AroundSeparator(a, sep, b);
      SplitAt(a[1..], sep, b);
      if a[0] == sep {
        FirstAndRest(a);
        FirstAndRest(a + [sep] + b);
        SplitSeparator(a + [sep] + b, sep, a[1..] + [sep] + b);
        SplitSeparator(a, sep, a[1..]);
        JoinedTwice([""], Split(a[1..], sep), Split(b, sep));
      } else {
        SplitOther(a + [sep] + b, sep);
        SplitOther(a, sep);
      }
    }
  }

  // ---------------------------------------------------------------- decimal numbers

  predicate IsDigit(c: char) {
    '0' <= c <= '9'
  }

  predicate AllDigits(s: string) {
    forall i :: 0 <= i < |s| ==> IsDigit(s[i])
  }

  /** The value of a string of digits. */
  function Value(s: string): nat
    requires AllDigits(s)
  {
    if s == "" then 0 else 10 * Value(s[..|s| - 1]) + (s[|s| - 1] as int - '0' as int)
  }

  /** The decimal notation of a number. */
  function Decimal(n: nat): (s: string)
    ensures s != "" && AllDigits(s)
  {
    var last := ('0' as int + n % 10) as char;
    if n < 10 then [last] else Decimal(n / 10) + [last]
  }

  lemma {:induction false} ValueOfDecimal(n: nat)
    ensures Value(Decimal(n)) == n
  {
    if n >= 10 {
      ValueOfDecimal(n / 10);
      assert Decimal(n)[..|Decimal(n)| - 1] == Decimal(n / 10);
    }
  }

  /** Different numbers have different decimal notations. */
  lemma DecimalsDiffer()
    ensures forall m: nat, n: nat :: Decimal(m) == Decimal(n) ==> m == n
  {
    forall m: nat, n: nat | Decimal(m) == Decimal(n) ensures m == n {
      ValueOfDecimal(m);
      ValueOfDecimal(n);
    }
  }

  /** A list is its first entry followed by the rest. */
  lemma FirstAndRest<T>(xs: seq<T>)
    requires xs != []
    ensures [xs[0]] + xs[1..] == xs
  {
  }

  lemma InitAndLast<T>(xs: seq<T>)
    requires xs != []
    ensures xs[..|xs| - 1] + [xs[|xs| - 1]] == xs
  {
  }

  lemma Init<T>(xs: seq<T>, x: T)
    ensures (xs + [x])[..|xs + [x]| - 1] == xs
  {
  }

  lemma JoinedTwice<T>(a: seq<T>, b: seq<T>, c: seq<T>)
    ensures a + (b + c) == (a + b) + c
  {
  }

  lemma SuffixWithLast<T>(xs: seq<T>, k: nat)
    requires k < |xs|
    ensures xs[k..] == xs[..|xs| - 1][k..] + [xs[|xs| - 1]]
  {
  }

  lemma WholeSuffix<T>(xs: seq<T>)
    ensures xs[0..] == xs
  {
  }

  lemma EmptyPrefix<T>(xs: seq<T>)
    ensures xs[..0] == []
  {
  }

  lemma FullPrefix<T>(xs: seq<T>)
    ensures xs[..|xs|] == xs
  {
  }

  lemma PrefixOfPrefix<T>(xs: seq<T>, n: nat, i: nat)
    requires i <= n <= |xs|
    ensures xs[..n][..i] == xs[..i]
  {
  }

  lemma PrefixOfAppend<T>(xs: seq<T>, x: T, i: nat)
    requires i <= |xs|
    ensures (xs + [x])[..i] == xs[..i]
  {
  }

  lemma SamePrefix<T>(xs: seq<T>, ys: seq<T>, k: nat)
    requires k == |ys| <= |xs| && forall i :: 0 <= i < k ==> xs[i] == ys[i]
    ensures xs[..k] == ys
  {
  }

  lemma OneMore<T>(xs: seq<T>, i: nat)
    requires i < |xs|
    ensures xs[..i + 1] == xs[..i] + [xs[i]]
  {
  }

  lemma SliceOfRest(s: string, i: nat, j: nat)
    requires i <= j < |s|
    ensures s[1..][i..j] == s[1 + i..1 + j]
  {
  }

  /** White space around a number. */
  predicate IsNumberSpace(c: char) {
    '\t' <= c <= '\r' || c == ' ' || c == '\U{85}' || c == '\U{A0}'
  }

  /** Digits, with single underscores between them. */
  predicate IsNumeral(s: string) {
    && s != "" && IsDigit(s[0]) && IsDigit(s[|s| - 1])
    && (forall i :: 0 <= i < |s| ==> IsDigit(s[i]) || s[i] == '_')
    && (forall i :: 0 <= i < |s| - 1 ==> IsDigit(s[i]) || IsDigit(s[i + 1]))
  }

  function WithoutUnderscores(s: string): (r: string)
    requires forall i :: 0 <= i < |s| ==> IsDigit(s[i]) || s[i] == '_'
    ensures AllDigits(r)
  {
    if s == "" then ""
    else if s[0] == '_' then WithoutUnderscores(s[1..])
    else [s[0]] + WithoutUnderscores(s[1..])
  }

  function TrimLeft(s: string): string {
    if s != "" && IsNumberSpace(s[0]) then TrimLeft(s[1..]) else s
  }

  function TrimRight(s: string): string {
    if s != "" && IsNumberSpace(s[|s| - 1]) then TrimRight(s[..|s| - 1]) else s
  }

  /** The integer a string denotes, None standing for a ValueError. */
  function ParseInt(s: string): Option<int> {
    var t := TrimRight(TrimLeft(s));
    var signed := t != "" && (t[0] == '-' || t[0] == '+');
    var body := if signed then t[1..] else t;
    if !IsNumeral(body) then None
    else
      var n: int := Value(WithoutUnderscores(body));
      Some(if signed && t[0] == '-' then -n else n)
  }

  lemma {:induction false} NoUnderscores(s: string)
    requires AllDigits(s)
    ensures WithoutUnderscores(s) == s
  {
    if s != "" {
      NoUnderscores(s[1..]);
    }
  }

  /** A string of digits denotes its value. */
  lemma ParseDigits(s: string)
    requires s != "" && AllDigits(s)
    ensures ParseInt(s) == Some(Value(s))
  {
    assert TrimLeft(s) == s && TrimRight(s) == s;
    assert IsNumeral(s);
    NoUnderscores(s);
  }

  /** Digits with single underscores between them denote their value. */
  lemma ParseNumeral(s: string, body: string)
    requires TrimRight(TrimLeft(s)) == body && IsNumeral(body)
    ensures ParseInt(s) == Some(Value(WithoutUnderscores(body)))
  {
  }

  /** And the opposite behind a minus. */
  lemma ParseNegative(s: string, t: string)
    requires TrimRight(TrimLeft(s)) == t && t != "" && t[0] == '-' && IsNumeral(t[1..])
    ensures ParseInt(s) == Some(-(Value(WithoutUnderscores(t[1..])) as int))
  {
  }

  // ---------------------------------------------------------------- stripping

  /** White space, as stripping a text removes it. */
  predicate IsSpace(c: char) {
    || '\t' <= c <= '\r' || '\U{1C}' <= c <= ' ' || c == '\U{85}' || c == '\U{A0}' || c == '\U{1680}'
    || '\U{2000}' <= c <= '\U{200A}' || c == '\U{2028}' || c == '\U{2029}' || c == '\U{202F}' || c == '\U{205F}'
    || c == '\U{3000}'
  }

  /** The text without the leading characters that `drop` picks. */
  function StripLeft(s: string, drop: char -> bool): (r: string)
    ensures |r| <= |s| && r == s[|s| - |r|..]
    ensures r != "" ==> !drop(r[0])
  {
    if s != "" && drop(s[0]) then StripLeft(s[1..], drop) else s
  }

  /** The text without the trailing characters that `drop` picks. */
  function StripRight(s: string, drop: char -> bool): (r: string)
    ensures r <= s
    ensures r != "" ==> !drop(r[|r| - 1])
  {
    if s != "" && drop(s[|s| - 1]) then StripRight(s[..|s| - 1], drop) else s
  }

  lemma {:induction false} StripLeftPadded(before: string, s: string, drop: char -> bool)
    requires (forall c :: c in before ==> drop(c)) && (s == "" || !drop(s[0]))
    ensures StripLeft(before + s, drop) == s
  {
    if before == "" {
      assert before + s == s;
    } else {
      assert (before + s)[1..] == before[1..] + s;
      StripLeftPadded(before[1..], s, drop);
    }
  }

  lemma {:induction false} StripRightPadded(s: string, after: string, drop: char -> bool)
    requires (forall c :: c in after ==> drop(c)) && (s == "" || !drop(s[|s| - 1]))
    ensures StripRight(s + after, drop) == s
  {
    if after == "" {
      assert s + after == s;
    } else {
      var n := |after| - 1;
      assert (s + after)[..|s + after| - 1] == s + after[..n];
      StripRightPadded(s, after[..n], drop);
    }
  }

  lemma {:induction false} StripAllDropped(s: string, drop: char -> bool)
    requires forall c :: c in s ==> drop(c)
    ensures StripLeft(s, drop) == ""
  {
    if s != "" { StripAllDropped(s[1..], drop); }
  }

  lemma StripKept(s: string, drop: char -> bool)
    requires s == "" || (!drop(s[0]) && !drop(s[|s| - 1]))
    ensures StripBy(s, drop) == s
  {
  }

  /** Stripping takes off what is to be dropped on both sides and no more. */
  lemma StripPadded(before: string, s: string, after: string, drop: char -> bool)
    requires forall c :: c in before + after ==> drop(c)
    requires s == "" || (!drop(s[0]) && !drop(s[|s| - 1]))
    ensures StripBy(before + s + after, drop) == s
  {
    assert forall c :: c in before ==> c in before + after;
    assert forall c :: c in after ==> c in before + after;
    if s == "" {
      assert before + s + after == before + after;
      StripAllDropped(before + after, drop);
    } else {
      assert before + s + after == before + (s + after);
      StripLeftPadded(before, s + after, drop);
      StripRightPadded(s, after, drop);
    }
  }

  function StripBy(s: string, drop: char -> bool): string {
    StripRight(StripLeft(s, drop), drop)
  }

  /** The text without surrounding white space. */
  function Strip(s: string): string {
    StripBy(s, IsSpace)
  }

  lemma StripLeftFirst(s: string, drop: char -> bool)
    requires s != "" && drop(s[0])
    ensures StripLeft(s, drop) == StripLeft(s[1..], drop)
  {
  }

  lemma NowhereIn<T>(xs: seq<T>, x: T)
    requires forall i :: 0 <= i < |xs| ==> xs[i] != x
    ensures x !in xs
  {
  }

  lemma SecondIsRest<T>(xs: seq<T>, ys: seq<T>)
    requires |xs| == 2 && |ys| == 1 && xs[1] == ys[0]
    ensures xs[1..] == ys
  {
  }

  /** One blank before one other character. */
  lemma StripBlank(s: string, c: string)
    requires |s| == 2 && |c| == 1 && s[1] == c[0] && IsSpace(s[0]) && !IsSpace(c[0])
    ensures Strip(s) == c && Strip(c) == c
  {
    SecondIsRest(s, c);
    StripLeftFirst(s, IsSpace);
    StripLeftNothing(c, IsSpace);
    StripRightNothing(c, IsSpace);
  }

  lemma {:induction false} StripLeftNothing(s: string, drop: char -> bool)
    requires s == "" || !drop(s[0])
    ensures StripLeft(s, drop) == s
  {
  }

  /** Stripping leaves part of the text, with nothing left to strip. */
  lemma StripFacts(s: string)
    ensures forall c :: c in Strip(s) ==> c in s
    ensures Strip(Strip(s)) == Strip(s)
  {
    StripLeaves(s);
    StripAgain(s);
  }

  lemma StripLeaves(s: string)
    ensures forall c :: c in Strip(s) ==> c in s
  {
    var left := StripLeft(s, IsSpace);
    var r := StripRight(left, IsSpace);
    assert r <= left;
    forall c | c in r ensures c in s {
      var i :| 0 <= i < |r| && r[i] == c;
      assert left[i] == c && s[|s| - |left| + i] == c;
    }
  }

  lemma {:induction false} StripRightNothing(s: string, drop: char -> bool)
    requires s == "" || !drop(s[|s| - 1])
    ensures StripRight(s, drop) == s
  {
  }

  ghost predicate AllSpace(s: string) {
    forall i :: 0 <= i < |s| ==> IsSpace(s[i])
  }

  /** The text without the white space around it, of which none is left. */
  ghost predicate IsStripped(r: string, s: string) {
    && (r != "" ==> !IsSpace(r[0]) && !IsSpace(r[|r| - 1]))
    && exists before, after :: AllSpace(before) && AllSpace(after) && s == before + r + after
  }

  lemma {:induction false} StripLeftDrops(s: string, i: nat)
    requires i < |s| - |StripLeft(s, IsSpace)|
    ensures IsSpace(s[i])
  {
    if i > 0 { StripLeftDrops(s[1..], i - 1); }
  }

  lemma {:induction false} StripRightDrops(s: string, i: nat)
    requires |StripRight(s, IsSpace)| <= i < |s|
    ensures IsSpace(s[i])
  {
    if i < |s| - 1 { StripRightDrops(s[..|s| - 1], i); }
  }

  lemma LeftDropped(s: string)
    ensures AllSpace(s[..|s| - |StripLeft(s, IsSpace)|])
  {
    forall i | 0 <= i < |s| - |StripLeft(s, IsSpace)| ensures IsSpace(s[i]) {
      StripLeftDrops(s, i);
    }
  }

  lemma RightDropped(s: string)
    ensures AllSpace(s[|StripRight(s, IsSpace)|..])
  {
    var n := |StripRight(s, IsSpace)|;
    forall i | 0 <= i < |s| - n ensures IsSpace(s[n..][i]) {
      StripRightDrops(s, n + i);
    }
  }

  lemma CutTwice(s: string, left: string, r: string, before: string, after: string)
    requires |left| <= |s| && left == s[|s| - |left|..] && r <= left
    requires before == s[..|s| - |left|] && after == left[|r|..]
    ensures s == before + r + after
  {
  }

  lemma StrippedEnds(s: string)
    ensures Strip(s) != "" ==> !IsSpace(Strip(s)[0]) && !IsSpace(Strip(s)[|Strip(s)| - 1])
  {
    var left := StripLeft(s, IsSpace);
    assert Strip(s) <= left;
  }

  lemma StrippedAround(s: string) returns (before: string, after: string)
    ensures AllSpace(before) && AllSpace(after) && s == before + Strip(s) + after
  {
    var left := StripLeft(s, IsSpace);
    LeftDropped(s);
    RightDropped(left);
    before, after := s[..|s| - |left|], left[|Strip(s)|..];
    CutTwice(s, left, Strip(s), before, after);
  }

  lemma StripIsStripped(s: string)
    ensures IsStripped(Strip(s), s)
  {
    StrippedEnds(s);
    var before, after := StrippedAround(s);
  }

  lemma StripAgain(s: string)
    ensures Strip(Strip(s)) == Strip(s)
  {
    var left := StripLeft(s, IsSpace);
    var r := StripRight(left, IsSpace);
    assert r <= left;
    assert r != "" ==> r[0] == left[0];
    StripLeftNothing(r, IsSpace);
    StripRightNothing(r, IsSpace);
  }
}
