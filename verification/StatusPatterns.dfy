/**
 The patterns of the status protocol, each from both sides: what a text that matches reads back as, and that nothing
 else is taken for a match.
 */
module StatusPatterns {
  import opened Wrappers
  import opened StatusQuery
  import opened StatusPrinting
  import opened StatusWire
  import Text

  /** The text, or the text before one last line break. */
  predicate IsEnded(s: string, text: string) {
    s == text || s == text + "\n"
  }

  // ---------------------------------------------------------------- objectives

  /** `obj_` and a name without line breaks. */
  predicate IsObjective(param: string, name: string) {
    name != "" && '\n' !in name && IsEnded(param, "obj_" + name)
  }

  lemma ObjectiveIff(param: string, name: string)
    ensures ObjectiveName(param) == Some(name) <==> IsObjective(param, name)
  {
    if ObjectiveName(param) == Some(name) { ObjectiveFound(param, name); }
    if IsObjective(param, name) { ObjectiveRead(param, name); }
  }

  lemma ObjectiveFound(param: string, name: string)
    requires ObjectiveName(param) == Some(name)
    ensures IsObjective(param, name)
  {
    var rest := param[4..];
    assert param == "obj_" + rest;
    if rest != "" && rest[|rest| - 1] == '\n' {
      Text.InitAndLast(rest);
      assert param == "obj_" + name + "\n";
    }
  }

  lemma ObjectiveRead(param: string, name: string)
    requires IsObjective(param, name)
    ensures ObjectiveName(param) == Some(name)
  {
    ObjectiveNameBack(name);
    if param == "obj_" + name + "\n" {
      assert param[4..] == name + "\n";
      assert (name + "\n")[..|name|] == name;
    }
  }

  // ---------------------------------------------------------------- players

  /** A parameter without line breaks, an underscore and digits. */
  predicate IsPlayerParam(key: string, param: string, id: string) {
    param != "" && '\n' !in param && id != "" && Text.AllDigits(id) && IsEnded(key, param + "_" + id)
  }

  lemma PlayerParamIff(key: string, param: string, id: string)
    ensures PlayerParam(key) == Some((param, id)) <==> IsPlayerParam(key, param, id)
  {
    if PlayerParam(key) == Some((param, id)) { PlayerParamFound(key, param, id); }
    if IsPlayerParam(key, param, id) { PlayerParamRead(key, param, id); }
  }

  lemma CutWhole(s: string, cut: nat)
    requires cut < |s|
    ensures s == s[..cut] + [s[cut]] + s[cut + 1..]
  {
  }

  lemma ParamBeforeFound(s: string, param: string, id: string)
    requires ParamBefore(s, TrailingDigits(s)) == Some((param, id))
    ensures param != "" && '\n' !in param && id != "" && Text.AllDigits(id) && s == param + "_" + id
  {
    CutWhole(s, |s| - TrailingDigits(s) - 1);
  }

  lemma PlayerParamFound(key: string, param: string, id: string)
    requires PlayerParam(key) == Some((param, id))
    ensures IsPlayerParam(key, param, id)
  {
    var ended := key != "" && key[|key| - 1] == '\n';
    ParamBeforeFound(if ended then key[..|key| - 1] else key, param, id);
    if ended { Text.InitAndLast(key); }
  }

  lemma PlayerParamRead(key: string, param: string, id: string)
    requires IsPlayerParam(key, param, id)
    ensures PlayerParam(key) == Some((param, id))
  {
    PlayerParamBack(param, id);
    var s := param + "_" + id;
    if key == s + "\n" {
      assert key[..|key| - 1] == s;
      AroundMark(param, id);
      ParamBeforeMark(param, id);
      TrailingDigitsOf(param + "_", id);
    }
  }

  // ---------------------------------------------------------------- the envelope

  /** Digits and a captured rest that is not empty, between prefix and suffix; one line break may follow. */
  ghost predicate IsEnvelope(data: string, digits: string, captured: string, tail: string) {
    && data == STATUS_PREFIX + (digits + captured) + EOF_SUFFIX + tail && (tail == "" || tail == "\n")
    && digits != "" && Text.AllDigits(digits) && captured != "" && '\n' !in captured
  }

  /** The digits cannot go on: the next character is none, or the last that there is to capture. */
  predicate IsGreedy(captured: string) {
    captured != "" && (|captured| == 1 || !Text.IsDigit(captured[0]))
  }

  lemma {:induction false} AllLeadingDigits(d: string)
    requires Text.AllDigits(d)
    ensures LeadingDigits(d) == |d|
  {
    if d != "" { AllLeadingDigits(d[1..]); }
  }

  lemma CapturedGreedy(digits: string, captured: string)
    requires digits != "" && Text.AllDigits(digits) && '\n' !in captured && IsGreedy(captured)
    ensures Captured(digits + captured) == Some(captured)
  {
    var body := digits + captured;
    assert body[|digits|..] == captured;
    if Text.IsDigit(captured[0]) {
      assert Text.AllDigits(body);
      AllLeadingDigits(body);
      assert body[|body| - 1..] == captured && body[|body|..] == "";
    } else {
      LeadingDigitsOf(digits, captured);
    }
  }

  lemma CapturedSplit(body: string)
    requires Captured(body).Some?
    ensures var k := |body| - |Captured(body).value|;
            && 0 < k < |body| && Captured(body).value == body[k..] && Text.AllDigits(body[..k])
            && '\n' !in body[k..] && IsGreedy(body[k..])
  {
    var n := LeadingDigits(body);
    if n == |body| {
      assert Text.IsDigit(body[n - 1]);
      Text.NowhereIn(body[n - 1..], '\n');
    }
  }

  /** The text between prefix and suffix, and what follows the suffix. */
  lemma EnvelopeParts(body: string, tail: string)
    requires tail == "" || tail == "\n"
    ensures var data := STATUS_PREFIX + body + EOF_SUFFIX + tail;
            Normalize(data) == if Captured(body).Some? then Captured(body).value + tail else data
  {
    var core := STATUS_PREFIX + body + EOF_SUFFIX;
    var data := core + tail;
    assert core[|core| - 1] == EOF_SUFFIX[|EOF_SUFFIX| - 1] == '\\';
    assert tail == "" ==> data == core;
    assert tail == "\n" ==> data[|data| - 1] == '\n' && data[..|data| - 1] == core;
    assert core[|STATUS_PREFIX|..|core| - |EOF_SUFFIX|] == body;
    assert core[|core| - |EOF_SUFFIX|..] == EOF_SUFFIX;
  }

  /** An envelope comes off, whatever it holds; the digits of its number take as much as they can. */
  lemma EnvelopeTaken(data: string, digits: string, captured: string, tail: string)
    requires IsEnvelope(data, digits, captured, tail) && IsGreedy(captured)
    ensures Normalize(data) == captured + tail
  {
    CapturedGreedy(digits, captured);
    EnvelopeParts(digits + captured, tail);
  }

  /** What a change comes from. */
  ghost predicate IsTakenFrom(after: string, data: string) {
    exists digits, captured, tail ::
      IsEnvelope(data, digits, captured, tail) && IsGreedy(captured) && after == captured + tail
  }

  lemma TakenFromParts(body: string, tail: string)
    requires (tail == "" || tail == "\n") && Captured(body).Some?
    ensures var data := STATUS_PREFIX + body + EOF_SUFFIX + tail; IsTakenFrom(Normalize(data), data)
  {
    EnvelopeParts(body, tail);
    CapturedSplit(body);
    var k := |body| - |Captured(body).value|;
    assert body[..k] + body[k..] == body;
    assert IsEnvelope(STATUS_PREFIX + body + EOF_SUFFIX + tail, body[..k], body[k..], tail);
  }

  lemma CutOut(s: string, prefix: string, suffix: string)
    requires |prefix| + |suffix| <= |s| && prefix <= s && s[|s| - |suffix|..] == suffix
    ensures s == prefix + s[|prefix|..|s| - |suffix|] + suffix
  {
  }

  /** A changed text has both ends, apart from one line break that may follow. */
  lemma ChangedCore(data: string) returns (core: string, tail: string)
    requires Normalize(data) != data
    ensures data == core + tail && (tail == "" || tail == "\n") && HasEnds(core)
    ensures Captured(core[|STATUS_PREFIX|..|core| - |EOF_SUFFIX|]).Some?
  {
    tail := LineEnd(data);
    core := data[..|data| - |tail|];
  }

  /** Whatever is changed was an envelope: any other text stays as it is. */
  lemma OnlyEnvelopesChange(data: string)
    ensures Normalize(data) == data || IsTakenFrom(Normalize(data), data)
  {
    if Normalize(data) != data {
      var core, tail := ChangedCore(data);
      CutOut(core, STATUS_PREFIX, EOF_SUFFIX);
      TakenFromParts(core[|STATUS_PREFIX|..|core| - |EOF_SUFFIX|], tail);
    }
  }
}
