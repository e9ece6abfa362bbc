/** Cleaning player and host names: text tags are removed until none is left, those included that a removal exposes. */
module NameCleaning {
  import opened Wrappers
  import opened Replacement
  import Text

  /** Word characters, as the tag pattern distinguishes them. */
  type WordTest = char -> bool

  predicate OneOf(c: char, choices: string) {
    c in choices
  }

  /** `[b]`, `[\u]` and the like. */
  predicate IsShortTag(t: string) {
    || (|t| == 3 && t[0] == '[' && OneOf(t[1], "cubCUB") && t[2] == ']')
    || (|t| == 4 && t[0] == '[' && OneOf(t[1], "\\/") && OneOf(t[2], "cubCUB") && t[3] == ']')
  }

  /** `[c=FF0000]` and the like: no brackets between the sign after the letter and the end. */
  predicate IsColourTag(t: string, isWord: WordTest) {
    && |t| >= 4 && t[0] == '[' && OneOf(t[1], "cC") && !isWord(t[2]) && t[|t| - 1] == ']'
    && forall i :: 3 <= i < |t| - 1 ==> t[i] != '[' && t[i] != ']'
  }

  predicate IsTag(t: string, isWord: WordTest) {
    IsShortTag(t) || IsColourTag(t, isWord)
  }

  /** No stretch of the text is a tag. */
  ghost predicate TagFree(s: string, isWord: WordTest) {
    forall i, j :: 0 <= i <= j <= |s| ==> !IsTag(s[i..j], isWord)
  }

  // ---------------------------------------------------------------- the pattern at one place

  /** The length up to and including the first closing bracket, if only other signs than brackets precede it. */
  function UpToBracket(s: string): (n: nat)
    ensures n <= |s|
    ensures n > 0 ==> s[n - 1] == ']' && forall i :: 0 <= i < n - 1 ==> s[i] != '[' && s[i] != ']'
  {
    if s == "" || s[0] == '[' then 0
    else if s[0] == ']' then 1
    else
      var n := UpToBracket(s[1..]);
      if n == 0 then 0 else n + 1
  }

  /** A closing bracket with no bracket before it is found. */
  lemma {:induction false} BracketFound(s: string, k: nat)
    requires k < |s| && s[k] == ']' && forall i :: 0 <= i < k ==> s[i] != '[' && s[i] != ']'
    ensures UpToBracket(s) > 0
  {
    if k > 0 {
      BracketFound(s[1..], k - 1);
    }
  }

  /** The length of the tag a text starts with, the first alternative of the pattern being preferred; 0 for none. */
  function TagAt(s: string, isWord: WordTest): (n: nat)
    ensures n <= |s|
    ensures n > 0 ==> IsTag(s[..n], isWord)
    ensures n == 0 ==> forall m :: 0 <= m <= |s| ==> !IsTag(s[..m], isWord)
  {
    if |s| >= 3 && IsShortTag(s[..3]) then 3
    else if |s| >= 4 && IsShortTag(s[..4]) then 4
    else if |s| >= 4 && s[0] == '[' && OneOf(s[1], "cC") && !isWord(s[2]) && UpToBracket(s[3..]) > 0 then
      3 + UpToBracket(s[3..])
    else
      NoTagHere(s, isWord);
      0
  }

  lemma NoTagHere(s: string, isWord: WordTest)
    requires !(|s| >= 3 && IsShortTag(s[..3])) && !(|s| >= 4 && IsShortTag(s[..4]))
    requires |s| >= 4 && s[0] == '[' && OneOf(s[1], "cC") && !isWord(s[2]) ==> UpToBracket(s[3..]) == 0
    ensures forall m :: 0 <= m <= |s| ==> !IsTag(s[..m], isWord)
  {
    forall m | 0 <= m <= |s| ensures !IsTag(s[..m], isWord) {
      var t := s[..m];
      assert forall i :: 0 <= i < m ==> t[i] == s[i];
      if IsColourTag(t, isWord) {
        BracketFound(s[3..], m - 4);
      }
    }
  }

  // ---------------------------------------------------------------- removing

  /** The leftmost tag, as its start and length; length 0 for none. */
  function Search(s: string, isWord: WordTest): (r: (nat, nat))
    ensures r.0 + r.1 <= |s|
    ensures r.1 > 0 ==> IsTag(s[r.0..r.0 + r.1], isWord)
  {
    if TagAt(s, isWord) > 0 then (0, TagAt(s, isWord))
    else if s == "" then (0, 0)
    else
      var (start, length) := Search(s[1..], isWord);
      Text.SliceOfRest(s, start, start + length);
      if length == 0 then (0, 0) else (start + 1, length)
  }

  lemma {:induction false} RemovesSome(s: string, part: string, i: nat)
    requires part != "" && i + |part| <= |s| && s[i..i + |part|] == part
    ensures |RemoveAll(s, part)| < |s|
  {
    if !(part <= s) {
      assert s[0..|part|] == s[..|part|];
      assert s[1..][i - 1..i - 1 + |part|] == part;
      RemovesSome(s[1..], part, i - 1);
    }
  }

  /** The leftmost tag. */
  function Match(s: string, isWord: WordTest): (tag: string)
    ensures tag == "" <==> Search(s, isWord).1 == 0
  {
    var (start, length) := Search(s, isWord);
    s[start..start + length]
  }

  /** The text without the occurrences of its leftmost tag, if it has one. */
  function OneRemoved(s: string, isWord: WordTest): (r: Option<string>)
    ensures r.Some? ==> |r.value| < |s|
  {
    var tag := Match(s, isWord);
    if tag == "" then None
    else
      RemovesSome(s, tag, Search(s, isWord).0);
      Some(RemoveAll(s, tag))
  }

  /** The text once no tag is left. */
  function WithoutTags(s: string, isWord: WordTest): string
    decreases |s|
  {
    var next := OneRemoved(s, isWord);
    if next.None? then s else WithoutTags(next.value, isWord)
  }

  lemma RoundIs(s: string, isWord: WordTest)
    requires Match(s, isWord) != ""
    ensures var part := Match(s, isWord);
            && |RemoveAll(s, part)| < |s|
            && WithoutTags(RemoveAll(s, part), isWord) == WithoutTags(s, isWord)
  {
    assert OneRemoved(s, isWord) == Some(RemoveAll(s, Match(s, isWord)));
  }

  function Cleaned(name: string, isWord: WordTest): string {
    Text.Strip(WithoutTags(name, isWord))
  }

  /** Return a name free of text tags and surrounding white space. */
  method ForceCleanName(name: string, isWord: WordTest) returns (r: string)
    ensures r == Cleaned(name, isWord)
  {
    r := name;
    while true
      invariant WithoutTags(r, isWord) == WithoutTags(name, isWord)
      decreases |r|
    {
      if Match(r, isWord) == "" { break; }
      RoundIs(r, isWord);
      r := RemoveAll(r, Match(r, isWord));
    }
    r := Text.Strip(r);
  }

  /** A non-empty name: the cleaned one, else part of a digest of the address. */
  function ForceName(name: string, digest: string, isWord: WordTest): string
    requires |digest| >= 16
  {
    var cleaned := Cleaned(name, isWord);
    if cleaned == "" then "_" + digest[8..16] else cleaned
  }

  // ---------------------------------------------------------------- what cleaning guarantees

  /** The first text is the second with some characters left out. */
  ghost predicate IsSubsequence(a: string, b: string) {
    if b == "" then a == ""
    else (a != "" && a[0] == b[0] && IsSubsequence(a[1..], b[1..])) || IsSubsequence(a, b[1..])
  }

  lemma {:induction false} SubsequenceSelf(a: string)
    ensures IsSubsequence(a, a)
  {
    if a != "" { SubsequenceSelf(a[1..]); }
  }

  lemma {:induction false} SubsequenceTwice(a: string, b: string, c: string)
    requires IsSubsequence(a, b) && IsSubsequence(b, c)
    ensures IsSubsequence(a, c)
    decreases |c|
  {
    if c != "" {
      if b != "" && b[0] == c[0] && IsSubsequence(b[1..], c[1..]) {
        if a != "" && a[0] == b[0] && IsSubsequence(a[1..], b[1..]) {
          SubsequenceTwice(a[1..], b[1..], c[1..]);
        } else {
          SubsequenceTwice(a, b[1..], c[1..]);
        }
      } else {
        SubsequenceTwice(a, b, c[1..]);
      }
    }
  }

  lemma {:induction false} SuffixSubsequence(a: string, drop: nat)
    requires drop <= |a|
    ensures IsSubsequence(a[drop..], a)
    decreases |a|
  {
    if drop == 0 {
      assert a[0..] == a;
      SubsequenceSelf(a);
    } else {
      SuffixSubsequence(a[1..], drop - 1);
      assert a[1..][drop - 1..] == a[drop..];
    }
  }

  lemma {:induction false} PrefixSubsequence(a: string, keep: nat)
    requires keep <= |a|
    ensures IsSubsequence(a[..keep], a)
    decreases |a|
  {
    if a != "" {
      if keep > 0 {
        PrefixSubsequence(a[1..], keep - 1);
        assert a[1..][..keep - 1] == a[..keep][1..];
      } else {
        PrefixSubsequence(a[1..], 0);
        assert a[1..][..0] == a[..0];
      }
    }
  }

  lemma {:induction false} RemoveAllSubsequence(s: string, part: string)
    requires part != ""
    ensures IsSubsequence(RemoveAll(s, part), s)
    decreases |s|
  {
    if |s| < |part| {
      SubsequenceSelf(s);
    } else if part <= s {
      RemoveAllSubsequence(s[|part|..], part);
      SuffixSubsequence(s, |part|);
      SubsequenceTwice(RemoveAll(s, part), s[|part|..], s);
    } else {
      RemoveAllSubsequence(s[1..], part);
      assert ([s[0]] + RemoveAll(s[1..], part))[1..] == RemoveAll(s[1..], part);
    }
  }

  lemma {:induction false} WithoutTagsSubsequence(s: string, isWord: WordTest)
    ensures IsSubsequence(WithoutTags(s, isWord), s)
    decreases |s|
  {
    var next := OneRemoved(s, isWord);
    if next.None? {
      SubsequenceSelf(s);
    } else {
      OneRemovedSubsequence(s, isWord);
      WithoutTagsSubsequence(next.value, isWord);
      SubsequenceTwice(WithoutTags(s, isWord), next.value, s);
    }
  }

  lemma OneRemovedSubsequence(s: string, isWord: WordTest)
    requires OneRemoved(s, isWord).Some?
    ensures IsSubsequence(OneRemoved(s, isWord).value, s)
  {
    RemoveAllSubsequence(s, Match(s, isWord));
  }

  /** The search finds nothing just when the text is free of tags. */
  lemma {:induction false} SearchIffTag(s: string, isWord: WordTest)
    ensures Search(s, isWord).1 == 0 <==> TagFree(s, isWord)
    decreases |s|
  {
    if s != "" {
      SearchIffTag(s[1..], isWord);
      TagFreeParts(s, isWord);
    } else {
      assert forall i, j :: 0 <= i <= j <= |s| ==> s[i..j] == "";
    }
  }

  /** A text is free of tags just when it starts with none and its rest is free of them. */
  lemma TagFreeParts(s: string, isWord: WordTest)
    requires s != ""
    ensures TagFree(s, isWord) <==> TagAt(s, isWord) == 0 && TagFree(s[1..], isWord)
  {
    var n := TagAt(s, isWord);
    assert s[..n] == s[0..n];
    forall i, j | 0 <= i <= j <= |s[1..]| ensures s[1..][i..j] == s[1 + i..1 + j] {
      SliceOfSlice(s, 1, |s|, i, j);
      assert s[1..] == s[1..|s|];
    }
    if n == 0 && TagFree(s[1..], isWord) {
      forall i, j | 0 <= i <= j <= |s| ensures !IsTag(s[i..j], isWord) {
        if i == 0 {
          assert s[0..j] == s[..j];
        } else {
          assert s[i..j] == s[1..][i - 1..j - 1];
        }
      }
    }
  }

  lemma {:induction false} WithoutTagsIsFree(s: string, isWord: WordTest)
    ensures TagFree(WithoutTags(s, isWord), isWord)
    decreases |s|
  {
    var next := OneRemoved(s, isWord);
    if next.None? {
      SearchIffTag(s, isWord);
    } else {
      WithoutTagsIsFree(next.value, isWord);
    }
  }

  lemma SliceOfSlice(s: string, from: nat, to: nat, i: nat, j: nat)
    requires from <= to <= |s| && i <= j <= to - from
    ensures s[from..to][i..j] == s[from + i..from + j]
  {
    var t := s[from..to];
    forall k | 0 <= k < j - i ensures t[i..j][k] == s[from + i..from + j][k] {
      assert t[i + k] == s[from + i + k];
    }
  }

  /** A stretch of a text free of tags is free of tags. */
  lemma StretchFree(s: string, from: nat, to: nat, isWord: WordTest)
    requires from <= to <= |s| && TagFree(s, isWord)
    ensures TagFree(s[from..to], isWord)
  {
    forall i, j | 0 <= i <= j <= |s[from..to]| ensures !IsTag(s[from..to][i..j], isWord) {
      SliceOfSlice(s, from, to, i, j);
    }
  }

  /** Stripping takes a stretch of the text. */
  lemma StrippedStretch(s: string) returns (from: nat, to: nat)
    ensures from <= to <= |s| && Text.Strip(s) == s[from..to]
    ensures IsSubsequence(Text.Strip(s), s)
  {
    var left := Text.StripLeft(s, Text.IsSpace);
    var r := Text.Strip(s);
    from := |s| - |left|;
    to := from + |r|;
    assert r == left[..|r|];
    PrefixSubsequence(left, |r|);
    SuffixSubsequence(s, from);
    SubsequenceTwice(r, left, s);
  }

  // ---------------------------------------------------------------- what cleaning takes away

  /** A tag starts here, and no tag starts before it; a tag of the short kind is taken first. */
  ghost predicate IsFirstTag(s: string, tag: string, start: nat, isWord: WordTest) {
    && OccursAt(s, tag, start) && IsTag(tag, isWord)
    && (forall i, j :: 0 <= i < start && i <= j <= |s| ==> !IsTag(s[i..j], isWord))
    && (!IsShortTag(tag) ==> forall j :: start <= j <= |s| ==> !IsShortTag(s[start..j]))
  }

  /** The next text is this one without its first tag, wherever that occurs, and nothing else. */
  ghost predicate IsRound(s: string, next: string, isWord: WordTest) {
    exists tag, start: nat :: IsFirstTag(s, tag, start, isWord) && IsWithout(next, s, tag)
  }

  /** Texts from one round to the next, until no tag is left. */
  ghost predicate AreRounds(texts: seq<string>, isWord: WordTest) {
    && texts != [] && TagFree(texts[|texts| - 1], isWord)
    && forall i :: 0 <= i < |texts| - 1 ==> IsRound(texts[i], texts[i + 1], isWord)
  }

  lemma ShortFirst(s: string, isWord: WordTest)
    requires TagAt(s, isWord) > 0 && !IsShortTag(s[..TagAt(s, isWord)])
    ensures forall j :: 0 <= j <= |s| ==> !IsShortTag(s[0..j])
  {
    forall j | 0 <= j <= |s| ensures !IsShortTag(s[0..j]) {
      assert s[0..j] == s[..j];
    }
  }

  lemma FoundHere(s: string, isWord: WordTest)
    requires TagAt(s, isWord) > 0
    ensures IsFirstTag(s, s[0..TagAt(s, isWord)], 0, isWord)
  {
    var n := TagAt(s, isWord);
    assert s[0..n] == s[..n];
    if !IsShortTag(s[..n]) { ShortFirst(s, isWord); }
  }

  lemma {:induction false} SearchFindsFirst(s: string, isWord: WordTest)
    requires Search(s, isWord).1 > 0
    ensures IsFirstTag(s, Match(s, isWord), Search(s, isWord).0, isWord)
    decreases |s|
  {
    if TagAt(s, isWord) > 0 {
      FoundHere(s, isWord);
    } else {
      SearchFindsFirst(s[1..], isWord);
      FirstInRest(s, Match(s[1..], isWord), Search(s[1..], isWord).0, isWord);
    }
  }

  /** What is first in the rest is first in the text that starts with no tag. */
  lemma FirstInRest(s: string, tag: string, start: nat, isWord: WordTest)
    requires s != "" && TagAt(s, isWord) == 0 && IsFirstTag(s[1..], tag, start, isWord)
    ensures IsFirstTag(s, tag, start + 1, isWord)
  {
    var rest := s[1..];
    forall i, j | 0 <= i <= j <= |rest| ensures rest[i..j] == s[i + 1..j + 1] {
      SliceOfSlice(s, 1, |s|, i, j);
      assert s[1..] == s[1..|s|];
    }
    forall i, j | 0 <= i < start + 1 && i <= j <= |s| ensures !IsTag(s[i..j], isWord) {
      if i == 0 {
        assert s[0..j] == s[..j];
      } else {
        assert s[i..j] == rest[i - 1..j - 1];
      }
    }
    var from := start + 1;
    forall j | from <= j <= |s| ensures !IsShortTag(tag) ==> !IsShortTag(s[from..j]) {
      assert s[from..j] == rest[start..j - 1];
    }
  }

  lemma RoundTaken(s: string, isWord: WordTest)
    requires OneRemoved(s, isWord).Some?
    ensures IsRound(s, OneRemoved(s, isWord).value, isWord)
  {
    SearchFindsFirst(s, isWord);
    RemovedIsWithout(s, Match(s, isWord));
  }

  /** All the texts on the way to the one without tags. */
  function Rounds(s: string, isWord: WordTest): (texts: seq<string>)
    ensures texts != [] && texts[0] == s && texts[|texts| - 1] == WithoutTags(s, isWord)
    decreases |s|
  {
    var next := OneRemoved(s, isWord);
    if next.None? then [s] else [s] + Rounds(next.value, isWord)
  }

  lemma {:induction false} RoundsTaken(s: string, isWord: WordTest)
    ensures AreRounds(Rounds(s, isWord), isWord)
    decreases |s|
  {
    WithoutTagsIsFree(s, isWord);
    var next := OneRemoved(s, isWord);
    if next.Some? {
      RoundTaken(s, isWord);
      RoundsTaken(next.value, isWord);
      OneMoreRound(s, Rounds(next.value, isWord), isWord);
    }
  }

  lemma OneMoreRound(s: string, texts: seq<string>, isWord: WordTest)
    requires AreRounds(texts, isWord) && IsRound(s, texts[0], isWord)
    ensures AreRounds([s] + texts, isWord)
  {
    var all := [s] + texts;
    forall i | 0 <= i < |all| - 1 ensures IsRound(all[i], all[i + 1], isWord) {
      if i > 0 { assert all[i] == texts[i - 1] && all[i + 1] == texts[i]; }
    }
  }

  /**
   Rounds lead from the name to a text without tags, each taking nothing but the first tag, wherever it occurs; and
   what remains is that text without the white space around it.
   */
  ghost predicate IsCleaning(r: string, name: string, isWord: WordTest) {
    exists texts: seq<string> ::
      AreRounds(texts, isWord) && texts[0] == name && Text.IsStripped(r, texts[|texts| - 1])
  }

  lemma CleaningTakesTags(name: string, isWord: WordTest)
    ensures IsCleaning(Cleaned(name, isWord), name, isWord)
  {
    var texts := Rounds(name, isWord);
    RoundsTaken(name, isWord);
    Text.StripIsStripped(WithoutTags(name, isWord));
    assert Text.IsStripped(Cleaned(name, isWord), texts[|texts| - 1]);
  }

  /** A name without tags only loses the white space around it. */
  lemma UntaggedKept(name: string, isWord: WordTest)
    requires TagFree(name, isWord)
    ensures Text.IsStripped(Cleaned(name, isWord), name)
  {
    SearchIffTag(name, isWord);
    Text.StripIsStripped(name);
  }

  /**
   Cleaning takes tags and surrounding white space away and nothing else: a name without tags is only stripped.  What
   it yields is a subsequence of the name, contains no tag, is trimmed, and stays the same when cleaned again.
   */
  lemma CleanedName(name: string, isWord: WordTest)
    ensures var r := Cleaned(name, isWord);
            && IsCleaning(r, name, isWord) && (TagFree(name, isWord) ==> Text.IsStripped(r, name))
            && IsSubsequence(r, name) && TagFree(r, isWord)
            && (r != "" ==> !Text.IsSpace(r[0]) && !Text.IsSpace(r[|r| - 1]))
            && Cleaned(r, isWord) == r
  {
    CleaningTakesTags(name, isWord);
    if TagFree(name, isWord) { UntaggedKept(name, isWord); }
    CleaningLeaves(name, isWord);
  }

  lemma CleaningLeaves(name: string, isWord: WordTest)
    ensures var r := Cleaned(name, isWord);
            && IsSubsequence(r, name) && TagFree(r, isWord)
            && (r != "" ==> !Text.IsSpace(r[0]) && !Text.IsSpace(r[|r| - 1]))
            && Cleaned(r, isWord) == r
  {
    var bare, r := WithoutTags(name, isWord), Cleaned(name, isWord);
    WithoutTagsSubsequence(name, isWord);
    WithoutTagsIsFree(name, isWord);
    var from, to := StrippedStretch(bare);
    StretchFree(bare, from, to, isWord);
    SubsequenceTwice(r, bare, name);
    Text.StrippedEnds(bare);
    SearchIffTag(r, isWord);
    Text.StripFacts(bare);
  }

  // ---------------------------------------------------------------- which texts are tags

  /** A letter of the three, in brackets, alone or behind one of the two strokes. */
  lemma LetterTags(letter: char, stroke: char, isWord: WordTest)
    requires letter in "bBcCuU" && stroke in "/\\"
    ensures IsTag("[" + [letter] + "]", isWord) && IsTag("[" + [stroke] + [letter] + "]", isWord)
  {
    var plain, struck := "[" + [letter] + "]", "[" + [stroke] + [letter] + "]";
    assert |plain| == 3 && plain[0] == '[' && plain[1] == letter && plain[2] == ']';
    assert |struck| == 4 && struck[0] == '[' && struck[1] == stroke && struck[2] == letter && struck[3] == ']';
  }

  /** The letter of colours, any sign that is no word character, and a text without brackets. */
  lemma ColourTags(letter: char, sign: char, text: string, isWord: WordTest)
    requires letter in "cC" && !isWord(sign) && '[' !in text && ']' !in text
    ensures IsTag("[" + [letter, sign] + text + "]", isWord)
  {
    var tag := "[" + [letter, sign] + text + "]";
    assert tag[0] == '[' && tag[1] == letter && tag[2] == sign && tag[|tag| - 1] == ']';
    forall i | 3 <= i < |tag| - 1 ensures tag[i] != '[' && tag[i] != ']' {
      assert tag[i] == text[i - 3] && tag[i] in text;
    }
  }

  lemma NoBracketNoTag(s: string, isWord: WordTest)
    requires '[' !in s
    ensures TagFree(s, isWord)
  {
    forall i, j | 0 <= i <= j <= |s| ensures !IsTag(s[i..j], isWord) {
      if i < j { assert s[i..j][0] == s[i] && s[i] in s; }
    }
  }

  lemma DigestPart(digest: string)
    requires |digest| >= 16 && '[' !in digest
    ensures '[' !in "_" + digest[8..16]
  {
  }

  /** A forced name is never empty and has no tag. */
  lemma ForcedName(name: string, digest: string, isWord: WordTest)
    requires |digest| >= 16 && '[' !in digest
    ensures ForceName(name, digest, isWord) != "" && TagFree(ForceName(name, digest, isWord), isWord)
  {
    CleaningLeaves(name, isWord);
    DigestPart(digest);
    if Cleaned(name, isWord) == "" { NoBracketNoTag(ForceName(name, digest, isWord), isWord); }
  }
}
