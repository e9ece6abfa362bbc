/** Taking every occurrence of a part out of a text, from left to right, and nothing else. */
module Replacement {
  import Text

  /** The text without the occurrences of a part, found from left to right without overlap. */
  function RemoveAll(s: string, part: string): (r: string)
    requires part != ""
    ensures |r| <= |s|
  {
    if |s| < |part| then s
    else if part <= s then RemoveAll(s[|part|..], part)
    else [s[0]] + RemoveAll(s[1..], part)
  }

  ghost predicate OccursAt(s: string, part: string, i: nat) {
    i + |part| <= |s| && s[i..i + |part|] == part
  }

  ghost predicate NoneBefore(s: string, part: string, n: nat) {
    forall i: nat :: i < n ==> !OccursAt(s, part, i)
  }

  /** The pieces with a separator between them. */
  function Joined(pieces: seq<string>, between: string): string
    requires pieces != []
  {
    if |pieces| == 1 then pieces[0] else pieces[0] + between + Joined(pieces[1..], between)
  }

  /** A piece, and the part behind it unless it is the last. */
  function Window(pieces: seq<string>, part: string, i: nat): string
    requires i < |pieces|
  {
    if i < |pieces| - 1 then pieces[i] + part else pieces[i]
  }

  /** The part occurs in no piece, and where a part follows a piece it occurs there for the first time. */
  ghost predicate FreeOf(pieces: seq<string>, part: string) {
    forall i :: 0 <= i < |pieces| ==>
      NoneBefore(Window(pieces, part, i), part, |pieces[i]|)
  }

  /** The text after taking the part away, from left to right, and nothing else. */
  ghost predicate IsWithout(after: string, s: string, part: string) {
    exists pieces: seq<string> ::
      pieces != [] && FreeOf(pieces, part) && s == Joined(pieces, part) && after == Joined(pieces, "")
  }

  function PiecesOf(s: string, part: string): (pieces: seq<string>)
    requires part != ""
    ensures pieces != []
  {
    if |s| < |part| then [s]
    else if part <= s then [""] + PiecesOf(s[|part|..], part)
    else
      var rest := PiecesOf(s[1..], part);
      [[s[0]] + rest[0]] + rest[1..]
  }

  lemma {:induction false} PiecesJoined(s: string, part: string)
    requires part != ""
    ensures Joined(PiecesOf(s, part), part) == s
    decreases |s|
  {
    if |s| >= |part| {
      if part <= s {
        PiecesJoined(s[|part|..], part);
        JoinedBehind(PiecesOf(s[|part|..], part), part);
        assert s == part + s[|part|..];
      } else {
        PiecesJoined(s[1..], part);
        JoinedLonger(PiecesOf(s[1..], part), part, s[0]);
        Text.FirstAndRest(s);
      }
    }
  }

  lemma {:induction false} PiecesKept(s: string, part: string)
    requires part != ""
    ensures Joined(PiecesOf(s, part), "") == RemoveAll(s, part)
    decreases |s|
  {
    if |s| >= |part| {
      if part <= s {
        PiecesKept(s[|part|..], part);
        JoinedBehind(PiecesOf(s[|part|..], part), "");
      } else {
        PiecesKept(s[1..], part);
        JoinedLonger(PiecesOf(s[1..], part), "", s[0]);
      }
    }
  }

  lemma JoinedBehind(rest: seq<string>, between: string)
    requires rest != []
    ensures Joined([""] + rest, between) == between + Joined(rest, between)
  {
    assert ([""] + rest)[1..] == rest;
  }

  lemma JoinedLonger(rest: seq<string>, between: string, c: char)
    requires rest != []
    ensures Joined([[c] + rest[0]] + rest[1..], between) == [c] + Joined(rest, between)
  {
    assert ([[c] + rest[0]] + rest[1..])[1..] == rest[1..];
  }

  lemma {:induction false} PiecesFree(s: string, part: string)
    requires part != ""
    ensures FreeOf(PiecesOf(s, part), part)
    decreases |s|
  {
    if |s| >= |part| {
      if part <= s {
        PiecesFree(s[|part|..], part);
        FreeBehind(PiecesOf(s[|part|..], part), part);
      } else {
        PiecesFree(s[1..], part);
        PiecesJoined(s, part);
        FreeLonger(PiecesOf(s[1..], part), part, s[0]);
      }
    }
  }

  lemma FreeBehind(rest: seq<string>, part: string)
    requires rest != [] && FreeOf(rest, part)
    ensures FreeOf([""] + rest, part)
  {
    var pieces := [""] + rest;
    forall i | 0 <= i < |pieces|
      ensures NoneBefore(Window(pieces, part, i), part, |pieces[i]|)
    {
      if i > 0 { assert pieces[i] == rest[i - 1]; }
    }
  }

  lemma NoneLonger(s: string, part: string, n: nat, c: char)
    requires NoneBefore(s, part, n) && !(part <= [c] + s)
    ensures NoneBefore([c] + s, part, n + 1)
  {
    var t := [c] + s;
    forall i: nat | i < n + 1 ensures !OccursAt(t, part, i) {
      if i + |part| > |t| {
      } else if i == 0 {
        assert t[0..|part|] == t[..|part|];
      } else {
        assert t[i..i + |part|] == s[i - 1..i - 1 + |part|];
        assert !OccursAt(s, part, i - 1);
      }
    }
  }

  lemma FirstWindow(pieces: seq<string>, part: string)
    requires pieces != []
    ensures Window(pieces, part, 0) <= Joined(pieces, part)
  {
  }

  lemma WindowLonger(rest: seq<string>, part: string, c: char)
    requires rest != []
    ensures Window([[c] + rest[0]] + rest[1..], part, 0) == [c] + Window(rest, part, 0)
  {
  }

  /** One more character in front of the first piece, with which no occurrence starts. */
  lemma FreeLonger(rest: seq<string>, part: string, c: char)
    requires rest != [] && FreeOf(rest, part)
    requires !(part <= Joined([[c] + rest[0]] + rest[1..], part))
    ensures FreeOf([[c] + rest[0]] + rest[1..], part)
  {
    var pieces := [[c] + rest[0]] + rest[1..];
    JoinedLonger(rest, part, c);
    FirstWindow(rest, part);
    NoneLonger(Window(rest, part, 0), part, |rest[0]|, c);
    WindowLonger(rest, part, c);
    forall i | 0 <= i < |pieces| ensures NoneBefore(Window(pieces, part, i), part, |pieces[i]|) {
      if i > 0 { assert pieces[i] == rest[i]; }
    }
  }

  /** What is removed is every occurrence of the part, found from left to right, and nothing else. */
  lemma RemovedIsWithout(s: string, part: string)
    requires part != ""
    ensures IsWithout(RemoveAll(s, part), s, part)
  {
    PiecesJoined(s, part);
    PiecesKept(s, part);
    PiecesFree(s, part);
  }


  // ---------------------------------------------------------------- no other text is left

  lemma OccursFirst(window: string, s: string, part: string)
    requires window <= s && part <= s && |part| <= |window|
    ensures OccursAt(window, part, 0)
  {
    assert window[0..0 + |part|] == part;
  }

  lemma StartsWithout(pieces: seq<string>, part: string)
    requires pieces != [] && pieces[0] != "" && FreeOf(pieces, part)
    ensures !(part <= Joined(pieces, part))
  {
    var s, window := Joined(pieces, part), Window(pieces, part, 0);
    FirstWindow(pieces, part);
    if part <= s {
      OccursFirst(window, s, part);
      assert false;
    }
  }

  lemma NoneShorter(s: string, part: string, n: nat)
    requires s != "" && NoneBefore(s, part, n + 1)
    ensures NoneBefore(s[1..], part, n)
  {
    forall i: nat | i < n ensures !OccursAt(s[1..], part, i) {
      if i + |part| <= |s[1..]| {
        assert s[1..][i..i + |part|] == s[i + 1..i + 1 + |part|];
        assert !OccursAt(s, part, i + 1);
      }
    }
  }

  lemma ShorterFree(pieces: seq<string>, part: string, shorter: seq<string>)
    requires pieces != [] && pieces[0] != "" && FreeOf(pieces, part) && shorter == [pieces[0][1..]] + pieces[1..]
    ensures FreeOf(shorter, part)
  {
    NoneShorter(Window(pieces, part, 0), part, |shorter[0]|);
    assert Window(pieces, part, 0)[1..] == Window(shorter, part, 0);
    forall i | 0 <= i < |shorter| ensures NoneBefore(Window(shorter, part, i), part, |shorter[i]|) {
      if i > 0 { assert shorter[i] == pieces[i] && NoneBefore(Window(pieces, part, i), part, |pieces[i]|); }
    }
  }

  lemma RestFree(pieces: seq<string>, part: string)
    requires |pieces| > 1 && FreeOf(pieces, part)
    ensures FreeOf(pieces[1..], part)
  {
    var rest := pieces[1..];
    forall i | 0 <= i < |rest| ensures NoneBefore(Window(rest, part, i), part, |rest[i]|) {
      assert rest[i] == pieces[i + 1] && NoneBefore(Window(pieces, part, i + 1), part, |pieces[i + 1]|);
    }
  }

  lemma RemovedFirst(rest: string, part: string)
    requires part != ""
    ensures RemoveAll(part + rest, part) == RemoveAll(rest, part)
  {
    assert (part + rest)[|part|..] == rest;
  }

  lemma KeptFirst(c: char, rest: string, part: string)
    requires part != "" && !(part <= [c] + rest) && |part| <= |rest| + 1
    ensures RemoveAll([c] + rest, part) == [c] + RemoveAll(rest, part)
  {
    assert ([c] + rest)[1..] == rest;
  }

  lemma ShorterJoined(pieces: seq<string>, shorter: seq<string>)
    requires pieces != [] && pieces[0] != "" && shorter == [pieces[0][1..]] + pieces[1..]
    ensures pieces == [[pieces[0][0]] + shorter[0]] + shorter[1..]
  {
    Text.FirstAndRest(pieces[0]);
    Text.FirstAndRest(pieces);
  }

  lemma LongerLeaves(pieces: seq<string>, part: string, c: char, shorter: seq<string>)
    requires part != "" && shorter != [] && pieces == [[c] + shorter[0]] + shorter[1..] && FreeOf(pieces, part)
    requires |part| <= |Joined(pieces, part)|
    requires Joined(shorter, "") == RemoveAll(Joined(shorter, part), part)
    ensures Joined(pieces, "") == RemoveAll(Joined(pieces, part), part)
  {
    StartsWithout(pieces, part);
    JoinedLonger(shorter, part, c);
    JoinedLonger(shorter, "", c);
    KeptFirst(c, Joined(shorter, part), part);
  }

  lemma {:induction false} SeveralAreLong(pieces: seq<string>, part: string)
    requires |pieces| > 1
    ensures |part| <= |Joined(pieces, part)|
  {
  }

  lemma ShortLeaves(pieces: seq<string>, part: string)
    requires part != "" && pieces != [] && |Joined(pieces, part)| < |part|
    ensures Joined(pieces, "") == RemoveAll(Joined(pieces, part), part)
  {
    if |pieces| > 1 { SeveralAreLong(pieces, part); }
  }

  lemma EmptyFirstLeaves(pieces: seq<string>, part: string)
    requires part != "" && |pieces| > 1 && pieces[0] == ""
    requires Joined(pieces[1..], "") == RemoveAll(Joined(pieces[1..], part), part)
    ensures Joined(pieces, "") == RemoveAll(Joined(pieces, part), part)
  {
    Text.FirstAndRest(pieces);
    JoinedBehind(pieces[1..], part);
    JoinedBehind(pieces[1..], "");
    RemovedFirst(Joined(pieces[1..], part), part);
  }

  /** Whatever pieces a text is cut into in that way, the same is left of it. */
  lemma {:induction false} PiecesLeave(pieces: seq<string>, part: string)
    requires part != "" && pieces != [] && FreeOf(pieces, part)
    ensures Joined(pieces, "") == RemoveAll(Joined(pieces, part), part)
    decreases |pieces|, |pieces[0]|
  {
    if |Joined(pieces, part)| < |part| {
      ShortLeaves(pieces, part);
    } else if pieces[0] == "" {
      RestFree(pieces, part);
      PiecesLeave(pieces[1..], part);
      EmptyFirstLeaves(pieces, part);
    } else {
      var c, shorter := pieces[0][0], [pieces[0][1..]] + pieces[1..];
      ShorterFree(pieces, part, shorter);
      ShorterJoined(pieces, shorter);
      PiecesLeave(shorter, part);
      LongerLeaves(pieces, part, c, shorter);
    }
  }

  /** So removal is the only way to do it. */
  lemma WithoutIff(after: string, s: string, part: string)
    requires part != ""
    ensures IsWithout(after, s, part) <==> after == RemoveAll(s, part)
  {
    RemovedIsWithout(s, part);
    if IsWithout(after, s, part) {
      var pieces: seq<string> :|
        pieces != [] && FreeOf(pieces, part) && s == Joined(pieces, part) && after == Joined(pieces, "");
      PiecesLeave(pieces, part);
    }
  }
}
