/**
 The packets of two server dialects.  AdminMod numbers its packets from zero in a statusresponse envelope and
 cuts the record anywhere between tokens; GameSpy 1 ends each packet, cut between pairs, with a queryid.
 */
module StatusWire {
  import opened Wrappers
  import opened StatusQuery
  import opened StatusDelivery
  import opened StatusPrinting
  import Text

  /** Tokens on the wire: a backslash before each. */
  function Wire(tokens: seq<string>): string {
    if tokens == [] then "" else "\\" + tokens[0] + Wire(tokens[1..])
  }

  ghost predicate AllPlain(tokens: seq<string>) {
    forall i :: 0 <= i < |tokens| ==> Plain(tokens[i])
  }

  lemma {:induction false} WireAppend(a: seq<string>, b: seq<string>)
    ensures Wire(a + b) == Wire(a) + Wire(b)
  {
    if a == [] {
      assert a + b == b;
    } else {
      WireAppend(a[1..], b);
      assert (a + b)[1..] == a[1..] + b;
    }
  }

  lemma {:induction false} WireIsJoin(tokens: seq<string>)
    requires tokens != []
    ensures Wire(tokens) == "\\" + Text.Join(tokens, '\\')
  {
    if |tokens| > 1 {
      WireIsJoin(tokens[1..]);
    }
  }

  lemma WireSplit(tokens: seq<string>)
    requires AllPlain(tokens)
    ensures Text.Split(Wire(tokens), '\\') == [""] + tokens
  {
    if tokens != [] {
      WireIsJoin(tokens);
      var all := [""] + tokens;
      assert all[1..] == tokens;
      assert Text.Join(all, '\\') == "" + ['\\'] + Text.Join(tokens, '\\');
      Text.SplitJoin(all, '\\');
    }
  }

  /** Reading back what is on the wire pairs the tokens up. */
  lemma WirePairs(tokens: seq<string>)
    requires AllPlain(tokens)
    ensures Pairs(Wire(tokens)) == PairUp(tokens)
  {
    WireSplit(tokens);
    assert ([""] + tokens)[1..] == tokens;
  }

  lemma {:induction false} WireHasNoBreak(tokens: seq<string>)
    requires AllPlain(tokens)
    ensures '\n' !in Wire(tokens)
  {
    if tokens != [] {
      WireHasNoBreak(tokens[1..]);
    }
  }

  // ---------------------------------------------------------------- tokens of a record

  function Tokens(es: seq<Entry>): seq<string> {
    if es == [] then [] else [KeyText(es[0]), ValueText(es[0])] + Tokens(es[1..])
  }

  lemma {:induction false} PairUpTokens(es: seq<Entry>)
    ensures PairUp(Tokens(es)) == PairsOf(es)
  {
    if es != [] {
      PairUpTokens(es[1..]);
      assert Tokens(es)[2..] == Tokens(es[1..]);
      PairsFromFront(es);
    }
  }

  lemma {:induction false} PairsFromFront(es: seq<Entry>)
    requires es != []
    ensures PairsOf(es) == [(KeyText(es[0]), ValueText(es[0]))] + PairsOf(es[1..])
  {
    if |es| > 1 {
      PairsFromFront(es[..|es| - 1]);
      assert es[..|es| - 1][1..] == es[1..][..|es| - 2];
    }
  }

  lemma {:induction false} TokensPlain(es: seq<Entry>)
    requires AllFit(es)
    ensures AllPlain(Tokens(es))
  {
    if es != [] {
      assert es[0] in es && Fits(es[0]);
      assert forall e :: e in es[1..] ==> e in es;
      TokensPlain(es[1..]);
    }
  }

  function Flatten(chunks: seq<seq<string>>): seq<string> {
    if chunks == [] then [] else chunks[0] + Flatten(chunks[1..])
  }

  // ---------------------------------------------------------------- AdminMod packets

  /** The tokens of an envelope. */
  function EnvelopeTokens(number: nat, chunk: seq<string>): seq<string> {
    ["statusresponse", Text.Decimal(number)] + chunk + ["eof", ""]
  }

  /** A chunk of tokens in its envelope. */
  function Envelope(number: nat, chunk: seq<string>): string {
    Wire(EnvelopeTokens(number, chunk))
  }

  /** The chunk holds "final" where its own packet has a key. */
  ghost predicate SaysFinal(chunk: seq<string>) {
    exists j :: 0 <= j < |chunk| && j % 2 == 0 && chunk[j] == "final"
  }

  lemma {:induction false} FinalAmongPairs(tokens: seq<string>)
    ensures IsFinal(PairUp(tokens)) <==> exists j :: 0 <= j < |tokens| - 1 && j % 2 == 0 && tokens[j] == "final"
  {
    if |tokens| >= 2 {
      var rest, pairs := tokens[2..], PairUp(tokens);
      FinalAmongPairs(rest);
      assert pairs[1..] == PairUp(rest);
      if IsFinal(pairs) {
        var i :| 0 <= i < |pairs| && pairs[i].0 == "final";
        if i == 0 {
          assert tokens[0] == "final";
        } else {
          assert PairUp(rest)[i - 1] == pairs[i];
          var j :| 0 <= j < |rest| - 1 && j % 2 == 0 && rest[j] == "final";
          assert tokens[j + 2] == "final";
        }
      }
      if j :| 0 <= j < |tokens| - 1 && j % 2 == 0 && tokens[j] == "final" {
        if j == 0 {
          assert pairs[0].0 == "final";
        } else {
          assert rest[j - 2] == "final";
          var i :| 0 <= i < |PairUp(rest)| && PairUp(rest)[i].0 == "final";
          assert pairs[i + 1].0 == "final";
        }
      }
    }
  }

  lemma EnvelopePlain(number: nat, chunk: seq<string>)
    requires AllPlain(chunk)
    ensures AllPlain(EnvelopeTokens(number, chunk))
  {
    var d := Text.Decimal(number);
    assert Plain(d) by {
      forall c | c in d ensures c != '\\' && c != '\n' {
        var i :| 0 <= i < |d| && d[i] == c;
        assert Text.IsDigit(d[i]);
      }
    }
  }

  lemma EnvelopePairs(number: nat, chunk: seq<string>)
    requires AllPlain(chunk)
    ensures Pairs(Envelope(number, chunk)) == PairUp(EnvelopeTokens(number, chunk))
  {
    EnvelopePlain(number, chunk);
    WirePairs(EnvelopeTokens(number, chunk));
  }

  lemma EnvelopeOrder(number: nat, chunk: seq<string>)
    ensures OrderOf(PairUp(EnvelopeTokens(number, chunk))) == Some(number + 1)
  {
    Text.ParseDigits(Text.Decimal(number));
    Text.ValueOfDecimal(number);
  }

  /** Behind the number, the tokens are those of the chunk. */
  lemma EnvelopeFinal(number: nat, chunk: seq<string>)
    ensures IsFinal(PairUp(EnvelopeTokens(number, chunk))) <==> SaysFinal(chunk)
  {
    var inner := chunk + ["eof", ""];
    var tokens := EnvelopeTokens(number, chunk);
    assert tokens[2..] == inner;
    FinalAmongPairs(tokens);
    if j :| 0 <= j < |tokens| - 1 && j % 2 == 0 && tokens[j] == "final" {
      assert j >= 2 && j - 2 < |inner| && inner[j - 2] == "final";
      assert chunk[j - 2] == "final";
    }
    if SaysFinal(chunk) {
      var j :| 0 <= j < |chunk| && j % 2 == 0 && chunk[j] == "final";
      assert tokens[j + 2] == "final";
    }
  }

  /** A packet's order is one more than its number; it is final just when the chunk says so. */
  lemma EnvelopeInfo(number: nat, chunk: seq<string>)
    requires AllPlain(chunk)
    ensures Order(Envelope(number, chunk)) == Some(number + 1)
    ensures Final(Envelope(number, chunk)) <==> SaysFinal(chunk)
  {
    EnvelopePairs(number, chunk);
    EnvelopeOrder(number, chunk);
    EnvelopeFinal(number, chunk);
  }

  lemma {:induction false} LeadingDigitsOf(d: string, rest: string)
    requires Text.AllDigits(d) && (rest == "" || !Text.IsDigit(rest[0]))
    ensures LeadingDigits(d + rest) == |d|
  {
    if d == "" {
      assert d + rest == rest;
    } else {
      LeadingDigitsOf(d[1..], rest);
      assert (d + rest)[1..] == d[1..] + rest;
    }
  }

  /** The envelope comes off when the text inside starts with no digit and has no line break. */
  lemma EnvelopeComesOff(d: string, body: string)
    requires d != "" && Text.AllDigits(d)
    requires body != "" && !Text.IsDigit(body[0]) && '\n' !in body
    ensures Normalize(STATUS_PREFIX + (d + body) + EOF_SUFFIX) == body
  {
    var inner := d + body;
    var data := STATUS_PREFIX + inner + EOF_SUFFIX;
    assert data[|data| - 1] == EOF_SUFFIX[|EOF_SUFFIX| - 1] == '\\';
    assert data[..|data| - 0] == data;
    assert data[|STATUS_PREFIX|..|data| - |EOF_SUFFIX|] == inner;
    assert data[|data| - |EOF_SUFFIX|..] == EOF_SUFFIX;
    LeadingDigitsOf(d, body);
    assert inner[|d|..] == body;
  }

  lemma EnvelopeText(number: nat, chunk: seq<string>)
    ensures Envelope(number, chunk) == STATUS_PREFIX + (Text.Decimal(number) + Wire(chunk)) + EOF_SUFFIX
  {
    var d := Text.Decimal(number);
    WireAppend(["statusresponse", d] + chunk, ["eof", ""]);
    WireAppend(["statusresponse", d], chunk);
    WireOfTwo("eof", "");
    WireOfTwo("statusresponse", d);
    assert "\\" + "eof" + "\\" + "" == EOF_SUFFIX && "\\" + "statusresponse" + "\\" == STATUS_PREFIX;
    Regroup(STATUS_PREFIX, d, Wire(chunk), EOF_SUFFIX);
  }

  lemma WireOfTwo(a: string, b: string)
    ensures Wire([a, b]) == "\\" + a + "\\" + b
  {
    assert [a, b][1..] == [b] && [b][1..] == [];
    assert Wire([b]) == "\\" + b;
  }

  lemma Regroup(a: string, b: string, c: string, d: string)
    ensures a + b + c + d == a + (b + c) + d
  {
  }

  /** Normalizing a packet leaves exactly its chunk. */
  lemma EnvelopeNormalized(number: nat, chunk: seq<string>)
    requires AllPlain(chunk) && chunk != []
    ensures Normalize(Envelope(number, chunk)) == Wire(chunk)
  {
    EnvelopeText(number, chunk);
    WireHasNoBreak(chunk);
    assert Wire(chunk)[0] == '\\';
    EnvelopeComesOff(Text.Decimal(number), Wire(chunk));
  }

  /** The packets for the chunks, numbered from `first`. */
  function AdminModPackets(chunks: seq<seq<string>>, first: nat): (packets: seq<string>)
    ensures |packets| == |chunks|
    ensures forall i :: 0 <= i < |chunks| ==> packets[i] == Envelope(first + i, chunks[i])
  {
    if chunks == [] then [] else [Envelope(first, chunks[0])] + AdminModPackets(chunks[1..], first + 1)
  }

  /** The tokens cut into non-empty chunks, only the last of which says final. */
  ghost predicate Cut(chunks: seq<seq<string>>, tokens: seq<string>) {
    && chunks != [] && Flatten(chunks) == tokens
    && forall i :: 0 <= i < |chunks| ==> chunks[i] != [] && (SaysFinal(chunks[i]) <==> i == |chunks| - 1)
  }

  lemma {:induction false} ChunksPlain(chunks: seq<seq<string>>)
    requires AllPlain(Flatten(chunks))
    ensures forall i :: 0 <= i < |chunks| ==> AllPlain(chunks[i])
  {
    if chunks != [] {
      var all := Flatten(chunks);
      assert forall k :: 0 <= k < |chunks[0]| ==> all[k] == chunks[0][k];
      assert forall k :: 0 <= k < |Flatten(chunks[1..])| ==> all[|chunks[0]| + k] == Flatten(chunks[1..])[k];
      ChunksPlain(chunks[1..]);
      assert forall i :: 0 < i < |chunks| ==> chunks[i] == chunks[1..][i - 1];
    }
  }

  lemma {:induction false} AdminModJoined(chunks: seq<seq<string>>, first: nat)
    requires forall i :: 0 <= i < |chunks| ==> AllPlain(chunks[i]) && chunks[i] != []
    ensures InSendingOrder(AdminModPackets(chunks, first)) == Wire(Flatten(chunks))
  {
    if chunks != [] {
      EnvelopeNormalized(first, chunks[0]);
      AdminModJoined(chunks[1..], first + 1);
      WireAppend(chunks[0], Flatten(chunks[1..]));
      assert AdminModPackets(chunks, first)[1..] == AdminModPackets(chunks[1..], first + 1);
    }
  }

  lemma AdminModWellFormed(chunks: seq<seq<string>>, tokens: seq<string>)
    requires Cut(chunks, tokens) && AllPlain(tokens)
    ensures WellFormed(AdminModPackets(chunks, 0))
  {
    ChunksPlain(chunks);
    forall i | 0 <= i < |chunks| ensures Claims(AdminModPackets(chunks, 0)[i], i, |chunks|) {
      EnvelopeInfo(i, chunks[i]);
    }
  }

  /**
   The AdminMod round trip: print a record, cut the tokens anywhere, deliver the packets in any order and with
   any repetitions; once all have arrived, collecting and expanding gives the record back.
   */
  lemma AdminModRoundTrip(es: seq<Entry>, chunks: seq<seq<string>>, indices: seq<nat>)
    requires AllFit(es) && KeysDiffer(es) && IdsDiffer(es) && Cut(chunks, Tokens(es))
    requires forall k :: 0 <= k < |indices| ==> indices[k] < |chunks|
    ensures var payload := Collected(Delivered(AdminModPackets(chunks, 0), indices));
            if AllArrived(AdminModPackets(chunks, 0), indices)
            then payload.Ok? && Expanded(payload.value).Ok? && IsRecordOf(Expanded(payload.value).value, es)
            else payload == Err(Incomplete)
  {
    TokensPlain(es);
    AdminModWellFormed(chunks, Tokens(es));
    CollectedDelivered(AdminModPackets(chunks, 0), indices);
    ChunksPlain(chunks);
    AdminModJoined(chunks, 0);
    WirePairs(Tokens(es));
    PairUpTokens(es);
    ExpandedRecord(es);
  }

  // ---------------------------------------------------------------- GameSpy 1 packets

  /** The entries that end a packet: its number and, for the last one, the final mark. */
  function Ending(number: nat, isLast: bool): seq<Entry> {
    [Field("queryid", Text.Decimal(number))] + if isLast then [Field("final", "")] else []
  }

  /** No entry of the record has a key that the protocol gives a meaning to. */
  ghost predicate Unreserved(es: seq<Entry>) {
    forall e :: e in es ==> KeyText(e) != "queryid" && KeyText(e) != "statusresponse" && KeyText(e) != "final"
  }

  /** The packets for consecutive parts of a record, numbered from `number`. */
  function GameSpyPackets(parts: seq<seq<Entry>>, number: nat): (packets: seq<string>)
    ensures |packets| == |parts|
    ensures forall i :: 0 <= i < |parts| ==>
      packets[i] == Wire(Tokens(parts[i] + Ending(number + i, i == |parts| - 1)))
  {
    if parts == [] then []
    else [Wire(Tokens(parts[0] + Ending(number, |parts| == 1)))] + GameSpyPackets(parts[1..], number + 1)
  }

  /** All that the packets carry, endings included. */
  function Carried(parts: seq<seq<Entry>>, number: nat): seq<Entry> {
    if parts == [] then []
    else parts[0] + Ending(number, |parts| == 1) + Carried(parts[1..], number + 1)
  }

  lemma {:induction false} TokensAppend(a: seq<Entry>, b: seq<Entry>)
    ensures Tokens(a + b) == Tokens(a) + Tokens(b)
  {
    if a == [] {
      assert a + b == b;
    } else {
      TokensAppend(a[1..], b);
      assert (a + b)[1..] == a[1..] + b;
    }
  }

  lemma QueryIdFits(number: nat)
    ensures Fits(Field("queryid", Text.Decimal(number)))
  {
    var d := Text.Decimal(number);
    forall c | c in d ensures c != '\\' && c != '\n' {
      var i :| 0 <= i < |d| && d[i] == c;
      assert Text.IsDigit(d[i]);
    }
    assert "obj_"[0] != "queryid"[0];
    assert TrailingDigits("queryid") == 0;
  }

  lemma FinalFits()
    ensures Fits(Field("final", ""))
  {
    assert "obj_"[0] != "final"[0];
    assert TrailingDigits("final") == 0;
  }

  lemma EndingFits(number: nat, isLast: bool)
    ensures AllFit(Ending(number, isLast))
  {
    QueryIdFits(number);
    FinalFits();
  }

  lemma {:induction false} OrderOfEntries(es: seq<Entry>, tail: seq<Pair>)
    requires Unreserved(es)
    ensures OrderOf(PairsOf(es) + tail) == OrderOf(tail)
    decreases |es|
  {
    if es == [] {
      assert PairsOf(es) + tail == tail;
    } else {
      PairsFromFront(es);
      assert es[0] in es;
      assert (PairsOf(es) + tail)[1..] == PairsOf(es[1..]) + tail;
      OrderOfEntries(es[1..], tail);
    }
  }

  lemma {:induction false} PairsAppend(a: seq<Entry>, b: seq<Entry>)
    ensures PairsOf(a + b) == PairsOf(a) + PairsOf(b)
    decreases |b|
  {
    if b == [] {
      assert a + b == a;
    } else {
      var init := b[..|b| - 1];
      PairsAppend(a, init);
      assert (a + b)[..|a + b| - 1] == a + init;
    }
  }

  lemma {:induction false} PairsHaveKeys(es: seq<Entry>)
    ensures |PairsOf(es)| == |es| && forall i :: 0 <= i < |es| ==> PairsOf(es)[i].0 == KeyText(es[i])
  {
    if es != [] {
      PairsHaveKeys(es[..|es| - 1]);
    }
  }

  lemma GameSpyInfo(part: seq<Entry>, number: nat, isLast: bool)
    requires AllFit(part) && Unreserved(part)
    ensures var packet := Wire(Tokens(part + Ending(number, isLast)));
            Order(packet) == Some(number) && (Final(packet) <==> isLast)
  {
    var all := part + Ending(number, isLast);
    EndingFits(number, isLast);
    TokensPlain(all);
    WirePairs(Tokens(all));
    PairUpTokens(all);
    GameSpyOrder(part, number, isLast);
    GameSpyFinal(part, number, isLast);
  }

  lemma GameSpyOrder(part: seq<Entry>, number: nat, isLast: bool)
    requires Unreserved(part)
    ensures OrderOf(PairsOf(part + Ending(number, isLast))) == Some(number)
  {
    PairsAppend(part, Ending(number, isLast));
    OrderOfEntries(part, PairsOf(Ending(number, isLast)));
    PairsFromFront(Ending(number, isLast));
    Text.ParseDigits(Text.Decimal(number));
    Text.ValueOfDecimal(number);
  }

  lemma GameSpyFinal(part: seq<Entry>, number: nat, isLast: bool)
    requires Unreserved(part)
    ensures IsFinal(PairsOf(part + Ending(number, isLast))) <==> isLast
  {
    var all := part + Ending(number, isLast);
    PairsHaveKeys(all);
    if isLast { assert all[|part| + 1] == Field("final", ""); }
    forall i | 0 <= i < |all| && KeyText(all[i]) == "final" ensures isLast {
      if i < |part| { assert part[i] in part; }
    }
  }

  lemma {:induction false} CarriedFits(parts: seq<seq<Entry>>, number: nat)
    requires forall i :: 0 <= i < |parts| ==> AllFit(parts[i])
    ensures AllFit(Carried(parts, number))
  {
    if parts != [] {
      EndingFits(number, |parts| == 1);
      CarriedFits(parts[1..], number + 1);
    }
  }

  lemma NotEnveloped(tokens: seq<string>)
    requires AllPlain(tokens) && tokens != [] && tokens[0] != "statusresponse"
    ensures Normalize(Wire(tokens)) == Wire(tokens)
  {
    WireHasNoBreak(tokens);
    var data := Wire(tokens);
    assert data[|data| - 1] in data;
    assert data[..|data| - 0] == data;
    if STATUS_PREFIX <= data {
      EnvelopeStart(tokens, data[|STATUS_PREFIX|..]);
    }
  }

  lemma EnvelopeStart(tokens: seq<string>, rest: string)
    requires AllPlain(tokens) && Wire(tokens) == STATUS_PREFIX + rest
    ensures tokens != [] && tokens[0] == "statusresponse"
  {
    WireSplit(tokens);
    var inner := "statusresponse" + ['\\'] + rest;
    assert STATUS_PREFIX == "" + ['\\'] + "statusresponse" + ['\\'];
    assert STATUS_PREFIX + rest == "" + ['\\'] + inner;
    Text.SplitFirst("", '\\', inner);
    Text.SplitFirst("statusresponse", '\\', rest);
    assert ([""] + tokens)[1] == "statusresponse";
  }

  lemma {:induction false} GameSpyJoined(parts: seq<seq<Entry>>, number: nat)
    requires forall i :: 0 <= i < |parts| ==> AllFit(parts[i]) && Unreserved(parts[i])
    ensures InSendingOrder(GameSpyPackets(parts, number)) == Wire(Tokens(Carried(parts, number)))
  {
    if parts != [] {
      var all := parts[0] + Ending(number, |parts| == 1);
      EndingFits(number, |parts| == 1);
      TokensPlain(all);
      assert all[0] in parts[0] || all[0] == Field("queryid", Text.Decimal(number));
      NotEnveloped(Tokens(all));
      GameSpyJoined(parts[1..], number + 1);
      TokensAppend(all, Carried(parts[1..], number + 1));
      WireAppend(Tokens(all), Tokens(Carried(parts[1..], number + 1)));
      assert GameSpyPackets(parts, number)[1..] == GameSpyPackets(parts[1..], number + 1);
    }
  }

  /**
   The GameSpy 1 round trip: the parts of a record sent as packets 1..n and delivered in any order expand to
   what one packet carrying all of them would.
   */
  lemma GameSpyRoundTrip(parts: seq<seq<Entry>>, indices: seq<nat>)
    requires parts != [] && forall i :: 0 <= i < |parts| ==> AllFit(parts[i]) && Unreserved(parts[i])
    requires forall k :: 0 <= k < |indices| ==> indices[k] < |parts|
    ensures var payload := Collected(Delivered(GameSpyPackets(parts, 1), indices));
            if AllArrived(GameSpyPackets(parts, 1), indices)
            then payload.Ok? && Expanded(payload.value) == Finish(AbsorbAll(PairsOf(Carried(parts, 1))))
            else payload == Err(Incomplete)
  {
    GameSpyWellFormed(parts);
    CollectedDelivered(GameSpyPackets(parts, 1), indices);
    GameSpyJoined(parts, 1);
    CarriedFits(parts, 1);
    TokensPlain(Carried(parts, 1));
    WirePairs(Tokens(Carried(parts, 1)));
    PairUpTokens(Carried(parts, 1));
  }

  lemma GameSpyWellFormed(parts: seq<seq<Entry>>)
    requires parts != [] && forall i :: 0 <= i < |parts| ==> AllFit(parts[i]) && Unreserved(parts[i])
    ensures WellFormed(GameSpyPackets(parts, 1))
  {
    forall i | 0 <= i < |parts| ensures Claims(GameSpyPackets(parts, 1)[i], i, |parts|) {
      GameSpyClaims(parts, i);
    }
  }

  lemma GameSpyClaims(parts: seq<seq<Entry>>, i: nat)
    requires i < |parts| && AllFit(parts[i]) && Unreserved(parts[i])
    ensures Claims(GameSpyPackets(parts, 1)[i], i, |parts|)
  {
    var packet := GameSpyPackets(parts, 1)[i];
    assert packet == Wire(Tokens(parts[i] + Ending(1 + i, i == |parts| - 1)));
    GameSpyInfo(parts[i], 1 + i, i == |parts| - 1);
  }
}
