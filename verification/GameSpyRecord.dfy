/**
 The GameSpy 1 dialect gives records back: apart from the packet marks, what numbered packets in any order expand to
 is the record whose parts they carry.
 */
module GameSpyRecord {
  import opened Wrappers
  import opened StatusQuery
  import opened StatusDelivery
  import opened StatusPrinting
  import opened StatusWire
  import Text
  import FiniteSets

  const MARKS := {"queryid", "final"}

  /** An entry that numbers or ends a packet. */
  predicate IsMark(e: Entry) {
    e.Field? && e.key in MARKS
  }

  function Unmarked(es: seq<Entry>): seq<Entry> {
    if es == [] then []
    else
      var init, last := Unmarked(es[..|es| - 1]), es[|es| - 1];
      if IsMark(last) then init else init + [last]
  }

  /** The record whose parts the packets carry. */
  function Whole(parts: seq<seq<Entry>>): seq<Entry> {
    if parts == [] then [] else parts[0] + Whole(parts[1..])
  }

  /** The information without the fields that come from marks. */
  function Bare(info: Info): Info {
    info.(fields := info.fields - MARKS)
  }

  lemma {:induction false} UnmarkedAppend(a: seq<Entry>, b: seq<Entry>)
    ensures Unmarked(a + b) == Unmarked(a) + Unmarked(b)
    decreases |b|
  {
    if b == [] {
      assert a + b == a;
    } else {
      var n := |b| - 1;
      UnmarkedAppend(a, b[..n]);
      assert (a + b)[..|a + b| - 1] == a + b[..n];
    }
  }

  lemma {:induction false} UnmarkedUnreserved(es: seq<Entry>)
    requires Unreserved(es)
    ensures Unmarked(es) == es
  {
    if es != [] {
      var last := es[|es| - 1];
      assert last in es;
      UnmarkedUnreserved(es[..|es| - 1]);
      Text.InitAndLast(es);
    }
  }

  lemma UnmarkedEnding(number: nat, isLast: bool)
    ensures Unmarked(Ending(number, isLast)) == []
  {
    var id, end := Field("queryid", Text.Decimal(number)), Field("final", "");
    assert Ending(number, isLast) == if isLast then [id, end] else [id];
    assert [id][..0] == [] && [id, end][..1] == [id];
    assert Unmarked([id]) == [];
  }

  lemma UnmarkedPart(part: seq<Entry>, number: nat, isLast: bool, rest: seq<Entry>)
    requires Unreserved(part)
    ensures Unmarked(part + Ending(number, isLast) + rest) == part + Unmarked(rest)
  {
    UnmarkedAppend(part + Ending(number, isLast), rest);
    UnmarkedAppend(part, Ending(number, isLast));
    UnmarkedUnreserved(part);
    UnmarkedEnding(number, isLast);
  }

  lemma {:induction false} UnmarkedCarried(parts: seq<seq<Entry>>, number: nat)
    requires forall i :: 0 <= i < |parts| ==> Unreserved(parts[i])
    ensures Unmarked(Carried(parts, number)) == Whole(parts)
  {
    if parts != [] {
      UnmarkedPart(parts[0], number, |parts| == 1, Carried(parts[1..], number + 1));
      UnmarkedCarried(parts[1..], number + 1);
    }
  }

  lemma OneMoreEntry(init: seq<Entry>, e: Entry)
    ensures PlayersOf(init + [e])
         == if e.PlayerEntry? then Updated(PlayersOf(init), e.id, e.param, e.setting) else PlayersOf(init)
    ensures ObjectivesOf(init + [e])
         == if e.ObjectiveEntry? then ObjectivesOf(init) + [Objective(e.name, e.status)] else ObjectivesOf(init)
    ensures FieldsOf(init + [e]) == if e.Field? then FieldsOf(init)[e.key := e.value] else FieldsOf(init)
  {
    Text.Init(init, e);
  }

  /** What marks add to the fields of a record is fields of their own, and they add nothing else. */
  ghost predicate SameRecord(marked: seq<Entry>, es: seq<Entry>) {
    && PlayersOf(marked) == PlayersOf(es) && ObjectivesOf(marked) == ObjectivesOf(es)
    && FieldsOf(marked) - MARKS == FieldsOf(es)
  }

  lemma MarkAdded(marked: seq<Entry>, es: seq<Entry>, e: Entry)
    requires SameRecord(marked, es) && IsMark(e)
    ensures SameRecord(marked + [e], es)
  {
    OneMoreEntry(marked, e);
    FiniteSets.MapsEqual(FieldsOf(marked)[e.key := e.value] - MARKS, FieldsOf(marked) - MARKS);
  }

  lemma EntryAdded(marked: seq<Entry>, es: seq<Entry>, e: Entry)
    requires SameRecord(marked, es) && !IsMark(e)
    ensures SameRecord(marked + [e], es + [e])
  {
    OneMoreEntry(marked, e);
    OneMoreEntry(es, e);
    FieldStored(FieldsOf(marked), e);
  }

  lemma {:induction false} SameApartFromMarks(es: seq<Entry>)
    ensures SameRecord(es, Unmarked(es))
  {
    if es != [] {
      var init, e := es[..|es| - 1], es[|es| - 1];
      SameApartFromMarks(init);
      Text.InitAndLast(es);
      if IsMark(e) {
        MarkAdded(init, Unmarked(init), e);
      } else {
        EntryAdded(init, Unmarked(init), e);
      }
    }
  }

  lemma FieldStored(fields: map<string, string>, e: Entry)
    requires !IsMark(e)
    ensures e.Field? ==> fields[e.key := e.value] - MARKS == (fields - MARKS)[e.key := e.value]
  {
  }

  lemma {:induction false} UnmarkedFit(es: seq<Entry>)
    requires AllFit(es)
    ensures AllFit(Unmarked(es))
  {
    if es != [] {
      var init := es[..|es| - 1];
      assert forall e :: e in init ==> e in es;
      UnmarkedFit(init);
      assert es[|es| - 1] in es;
    }
  }

  /** Marked entries expand to the record that the others describe, and to the fields of the marks. */
  lemma ExpandedMarked(es: seq<Entry>)
    requires AllFit(es) && KeysDiffer(Unmarked(es)) && IdsDiffer(Unmarked(es))
    ensures var r := Finish(AbsorbAll(PairsOf(es)));
            r.Ok? && IsRecordOf(Bare(r.value), Unmarked(es))
  {
    AbsorbEntries(es);
    SameApartFromMarks(es);
    UnmarkedFit(es);
    FieldsAre(Unmarked(es));
    PlayersSorted(Unmarked(es), AbsorbAll(PairsOf(es)).players);
  }

  /**
   The GameSpy 1 round trip for records: the parts of a record, sent as packets 1..n and delivered in any order with
   any repetitions, give the record back, its players in order, once all have arrived, and nothing before.
   */
  lemma GameSpyRecordBack(parts: seq<seq<Entry>>, indices: seq<nat>)
    requires parts != [] && forall i :: 0 <= i < |parts| ==> AllFit(parts[i]) && Unreserved(parts[i])
    requires KeysDiffer(Whole(parts)) && IdsDiffer(Whole(parts))
    requires forall k :: 0 <= k < |indices| ==> indices[k] < |parts|
    ensures var payload := Collected(Delivered(GameSpyPackets(parts, 1), indices));
            if AllArrived(GameSpyPackets(parts, 1), indices)
            then payload.Ok? && Expanded(payload.value).Ok?
                 && IsRecordOf(Bare(Expanded(payload.value).value), Whole(parts))
            else payload == Err(Incomplete)
  {
    GameSpyRoundTrip(parts, indices);
    CarriedFits(parts, 1);
    UnmarkedCarried(parts, 1);
    ExpandedMarked(Carried(parts, 1));
  }
}
