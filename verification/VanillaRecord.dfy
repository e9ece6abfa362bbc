/**
 The dialect of the original game: one packet with a queryid, which need not be a number, and a final mark, in either
 order and anywhere in the record.  The packet alone is the whole response.
 */
module VanillaRecord {
  import opened Wrappers
  import opened StatusQuery
  import opened StatusPrinting
  import opened StatusWire
  import opened StatusOrders
  import opened GameSpyRecord
  import Text

  /** The first queryid stands at this place, and nothing else claims an order. */
  ghost predicate IsNumberedAt(es: seq<Entry>, at: nat) {
    && at < |es| && KeyText(es[at]) == "queryid"
    && forall i :: 0 <= i < |es| ==> KeyText(es[i]) != "statusresponse" && (i < at ==> KeyText(es[i]) != "queryid")
  }

  ghost predicate HasFinal(es: seq<Entry>) {
    exists i :: 0 <= i < |es| && KeyText(es[i]) == "final"
  }

  /** What a queryid claims: its number, or one if it is none. */
  function ClaimOf(text: string): int {
    match Text.ParseInt(text)
    case None => 1
    case Some(n) => n
  }

  lemma {:induction false} PairsAtEntries(es: seq<Entry>)
    ensures |PairsOf(es)| == |es|
    ensures forall i :: 0 <= i < |es| ==> PairsOf(es)[i] == (KeyText(es[i]), ValueText(es[i]))
  {
    if es != [] {
      PairsAtEntries(es[..|es| - 1]);
    }
  }

  lemma PacketPairs(es: seq<Entry>)
    requires AllFit(es)
    ensures Pairs(Wire(Tokens(es))) == PairsOf(es)
  {
    TokensPlain(es);
    WirePairs(Tokens(es));
    PairUpTokens(es);
  }

  lemma PacketClaims(es: seq<Entry>, at: nat)
    requires AllFit(es) && IsNumberedAt(es, at)
    ensures Order(Wire(Tokens(es))) == Some(ClaimOf(ValueText(es[at])))
    ensures Final(Wire(Tokens(es))) <==> HasFinal(es)
  {
    PacketPairs(es);
    PairsAtEntries(es);
    OrderOfFirst(PairsOf(es), at);
  }

  lemma CollectedAlone(packet: string)
    requires Order(packet).Some? && Final(packet)
    ensures Collected([packet]) == if Order(packet) == Some(1) then Ok(Normalize(packet)) else Err(Incomplete)
  {
    var packets := [packet];
    Text.EmptyPrefix(packets);
    assert Ordered(packets) == map[Order(packet).value := packet];
    assert Expected(packets) == Order(packet);
    if Order(packet) == Some(1) { AssembledAlone(1, packet); }
  }

  lemma AssembledAlone(order: int, packet: string)
    ensures Assemble(map[order := packet]) == Normalize(packet)
  {
    var ordered := map[order := packet];
    assert ordered - {order} == map[];
    assert order in ordered.Keys;
  }

  lemma NothingEnveloped(es: seq<Entry>)
    requires AllFit(es) && es != [] && KeyText(es[0]) != "statusresponse"
    ensures Normalize(Wire(Tokens(es))) == Wire(Tokens(es))
  {
    TokensPlain(es);
    NotEnveloped(Tokens(es));
  }

  lemma AbsorbedFields(es: seq<Entry>)
    requires AllFit(es)
    ensures var r := Finish(AbsorbAll(PairsOf(es))); r.Ok? ==> r.value.fields == FieldsOf(es)
  {
    AbsorbEntries(es);
  }

  /**
   A single packet with a final mark is complete exactly when its queryid is no number or is one; and then it expands
   to the record that its other entries describe, its players in order, besides the fields of the marks.
   */
  lemma VanillaRecordBack(es: seq<Entry>, at: nat)
    requires AllFit(es) && IsNumberedAt(es, at) && HasFinal(es)
    requires KeysDiffer(Unmarked(es)) && IdsDiffer(Unmarked(es))
    ensures var number := Text.ParseInt(ValueText(es[at]));
            var payload := Collected([Wire(Tokens(es))]);
            if number.None? || number == Some(1)
            then payload.Ok? && Expanded(payload.value).Ok?
                 && IsRecordOf(Bare(Expanded(payload.value).value), Unmarked(es))
                 && Expanded(payload.value).value.fields == FieldsOf(es)
            else payload == Err(Incomplete)
  {
    PacketClaims(es, at);
    CollectedAlone(Wire(Tokens(es)));
    NothingEnveloped(es);
    PacketPairs(es);
    ExpandedMarked(es);
    AbsorbedFields(es);
  }

  // ---------------------------------------------------------------- queryids that are no numbers

  lemma {:induction false} TrimLeftKeeps(s: string, c: char)
    requires c in s && !Text.IsNumberSpace(c)
    ensures c in Text.TrimLeft(s)
  {
    if Text.IsNumberSpace(s[0]) {
      Text.FirstAndRest(s);
      TrimLeftKeeps(s[1..], c);
    }
  }

  lemma {:induction false} TrimRightKeeps(s: string, c: char)
    requires c in s && !Text.IsNumberSpace(c)
    ensures c in Text.TrimRight(s)
  {
    if Text.IsNumberSpace(s[|s| - 1]) {
      Text.InitAndLast(s);
      TrimRightKeeps(s[..|s| - 1], c);
    }
  }

  lemma NoNumeral(body: string, c: char)
    requires c in body && !Text.IsDigit(c) && c != '_'
    ensures !Text.IsNumeral(body)
  {
    var i :| 0 <= i < |body| && body[i] == c;
  }

  lemma BehindSign(t: string, c: char)
    requires c in t && c != t[0]
    ensures c in t[1..]
  {
    Text.FirstAndRest(t);
  }

  /** A text with any other sign than digits, underscores, white space, plus and minus, as in gs1 and 1.1. */
  lemma OtherSignNoNumber(s: string, c: char)
    requires c in s && !Text.IsDigit(c) && c != '_' && c != '+' && c != '-' && !Text.IsNumberSpace(c)
    ensures Text.ParseInt(s).None?
  {
    TrimLeftKeeps(s, c);
    TrimRightKeeps(Text.TrimLeft(s), c);
    var t := Text.TrimRight(Text.TrimLeft(s));
    NoNumeral(t, c);
    if t[0] == '-' || t[0] == '+' {
      BehindSign(t, c);
      NoNumeral(t[1..], c);
    }
  }

  // ---------------------------------------------------------------- marks at the end

  /** The two marks, in one order or the other. */
  function MarksOf(text: string, finalFirst: bool): seq<Entry> {
    var id, end := Field("queryid", text), Field("final", "");
    if finalFirst then [end, id] else [id, end]
  }

  lemma MarkFits(text: string)
    requires Plain(text)
    ensures Fits(Field("queryid", text)) && Fits(Field("final", ""))
  {
    QueryIdFits(0);
    FinalFits();
  }

  lemma BothFit(es: seq<Entry>, marks: seq<Entry>)
    requires AllFit(es) && AllFit(marks)
    ensures AllFit(es + marks)
  {
  }

  /** The place of the queryid among entries that end with both marks. */
  lemma NumberedBehind(es: seq<Entry>, marks: seq<Entry>, k: nat)
    requires Unreserved(es) && |marks| == 2 && k < 2
    requires KeyText(marks[k]) == "queryid" && KeyText(marks[1 - k]) == "final"
    ensures IsNumberedAt(es + marks, |es| + k) && (es + marks)[|es| + k] == marks[k] && HasFinal(es + marks)
  {
    var all := es + marks;
    assert forall i :: 0 <= i < |es| ==> all[i] == es[i] && es[i] in es;
    assert all[|es|] == marks[0] && all[|es| + 1] == marks[1];
    assert all[|es| + 1 - k] == marks[1 - k];
  }

  lemma MarkedEntries(es: seq<Entry>, text: string, finalFirst: bool)
    requires AllFit(es) && Unreserved(es) && Plain(text)
    ensures var all, k := es + MarksOf(text, finalFirst), if finalFirst then 1 else 0;
            && AllFit(all) && IsNumberedAt(all, |es| + k) && HasFinal(all)
            && all[|es| + k] == Field("queryid", text)
  {
    MarkFits(text);
    BothFit(es, MarksOf(text, finalFirst));
    NumberedBehind(es, MarksOf(text, finalFirst), if finalFirst then 1 else 0);
  }

  lemma UnmarkedMarks(es: seq<Entry>, text: string, finalFirst: bool)
    requires Unreserved(es)
    ensures Unmarked(es + MarksOf(text, finalFirst)) == es
  {
    var marks := MarksOf(text, finalFirst);
    UnmarkedAppend(es, marks);
    UnmarkedUnreserved(es);
    UnmarkedTwo(marks[0], marks[1]);
    assert marks == [marks[0], marks[1]];
  }

  lemma UnmarkedTwo(a: Entry, b: Entry)
    requires IsMark(a) && IsMark(b)
    ensures Unmarked([a, b]) == []
  {
    Text.Init([a], b);
    assert [a][..0] == [];
    assert Unmarked([a]) == [];
  }

  lemma MarkFields(es: seq<Entry>, text: string, finalFirst: bool)
    ensures var fields := FieldsOf(es + MarksOf(text, finalFirst));
            "queryid" in fields && fields["queryid"] == text && "final" in fields && fields["final"] == ""
  {
    var marks := MarksOf(text, finalFirst);
    OneMoreEntry(es, marks[0]);
    OneMoreEntry(es + [marks[0]], marks[1]);
    assert es + marks == es + [marks[0]] + [marks[1]];
  }

  /** The payload expands to this record, and to the two marks besides it. */
  ghost predicate IsMarkedRecord(payload: Result<string, Error>, es: seq<Entry>, text: string) {
    && payload.Ok? && Expanded(payload.value).Ok?
    && var info := Expanded(payload.value).value;
       && IsRecordOf(Bare(info), es)
       && "queryid" in info.fields && info.fields["queryid"] == text
       && "final" in info.fields && info.fields["final"] == ""
  }

  /**
   The round trip of the original game: a record with a queryid that is no number, or is one, and a final mark behind
   it, in either order, sent as one packet, gives the record back.
   */
  lemma MarkedRecordBack(es: seq<Entry>, text: string, finalFirst: bool)
    requires AllFit(es) && Unreserved(es) && KeysDiffer(es) && IdsDiffer(es) && Plain(text)
    requires Text.ParseInt(text).None? || Text.ParseInt(text) == Some(1)
    ensures IsMarkedRecord(Collected([Wire(Tokens(es + MarksOf(text, finalFirst)))]), es, text)
  {
    MarkedEntries(es, text, finalFirst);
    UnmarkedMarks(es, text, finalFirst);
    MarkFields(es, text, finalFirst);
    VanillaRecordBack(es + MarksOf(text, finalFirst), |es| + if finalFirst then 1 else 0);
  }
}
