/**
 What packets claim and what the collector makes of it, packet by packet and pair by pair: which pairs a payload has,
 which order and end a packet claims, which packets are kept, and in which order players are listed.
 */
module StatusOrders {
  import opened Wrappers
  import opened StatusQuery
  import Text
  import StableSort

  // ---------------------------------------------------------------- pairs

  lemma {:induction false} PairUpAt(tokens: seq<string>)
    ensures |PairUp(tokens)| == |tokens| / 2
    ensures forall i :: 0 <= i < |tokens| / 2 ==> PairUp(tokens)[i] == (tokens[2 * i], tokens[2 * i + 1])
  {
    if |tokens| >= 2 {
      PairUpAt(tokens[2..]);
    }
  }

  /** Behind the first backslash, odd pieces are keys and the pieces after them values; a last key alone is dropped. */
  lemma PairsAt(data: string)
    ensures var pieces := Text.Split(data, '\\');
            && |Pairs(data)| == (|pieces| - 1) / 2
            && forall i :: 0 <= i < |Pairs(data)| ==> Pairs(data)[i] == (pieces[2 * i + 1], pieces[2 * i + 2])
  {
    PairUpAt(Text.Split(data, '\\')[1..]);
  }

  // ---------------------------------------------------------------- the order a packet claims

  predicate IsOrderKey(key: string) {
    key == "statusresponse" || key == "queryid"
  }

  /** Only the first order key counts: a number, from zero for statusresponse; and 1 when it is no number. */
  lemma {:induction false} OrderOfFirst(params: seq<Pair>, i: nat)
    requires i < |params| && IsOrderKey(params[i].0) && forall j :: 0 <= j < i ==> !IsOrderKey(params[j].0)
    ensures OrderOf(params).Some?
    ensures var n := Text.ParseInt(params[i].1);
            && (n.None? ==> OrderOf(params) == Some(1))
            && (n.Some? && params[i].0 == "queryid" ==> OrderOf(params) == n)
            && (n.Some? && params[i].0 == "statusresponse" ==> OrderOf(params) == Some(n.value + 1))
  {
    if i > 0 { OrderOfFirst(params[1..], i - 1); }
  }

  lemma {:induction false} NoOrderIff(params: seq<Pair>)
    ensures OrderOf(params).None? <==> forall i :: 0 <= i < |params| ==> !IsOrderKey(params[i].0)
  {
    if params != [] {
      NoOrderIff(params[1..]);
      assert params == [params[0]] + params[1..];
    }
  }

  // ---------------------------------------------------------------- the packets that are kept

  /** Some packet claims this order and, of those that do, this is the last. */
  ghost predicate IsLastOf(packets: seq<string>, order: int, i: nat) {
    && i < |packets| && Order(packets[i]) == Some(order)
    && forall j :: i < j < |packets| ==> Order(packets[j]) != Some(order)
  }

  /** Of the packets that claim an order the last one is kept. */
  lemma {:induction false} LastIsKept(packets: seq<string>, order: int)
    requires forall p :: p in packets ==> Order(p).Some?
    ensures order in Ordered(packets) ==>
              exists i: nat :: IsLastOf(packets, order, i) && Ordered(packets)[order] == packets[i]
    ensures order !in Ordered(packets) ==> forall i :: 0 <= i < |packets| ==> Order(packets[i]) != Some(order)
  {
    if packets != [] {
      var n := |packets| - 1;
      var init := packets[..n];
      Text.InitAndLast(packets);
      LastIsKept(init, order);
      if Order(packets[n]) == Some(order) {
        assert IsLastOf(packets, order, n);
      } else if order in Ordered(init) {
        var i: nat :| IsLastOf(init, order, i) && Ordered(init)[order] == init[i];
        StillLast(packets, order, i);
      }
    }
  }

  lemma StillLast(packets: seq<string>, order: int, i: nat)
    requires packets != [] && IsLastOf(packets[..|packets| - 1], order, i)
    requires Order(packets[|packets| - 1]) != Some(order)
    ensures IsLastOf(packets, order, i) && packets[i] == packets[..|packets| - 1][i]
  {
    var init := packets[..|packets| - 1];
    assert forall j :: 0 <= j < |init| ==> packets[j] == init[j];
  }

  /** As many packets are expected as the last final one claims; none, as long as none is final. */
  lemma {:induction false} ExpectedIsLastFinal(packets: seq<string>, i: nat)
    requires i < |packets| && Final(packets[i]) && forall j :: i < j < |packets| ==> !Final(packets[j])
    ensures Expected(packets) == Order(packets[i])
  {
    if i < |packets| - 1 {
      var init := packets[..|packets| - 1];
      assert forall j :: 0 <= j < |init| ==> packets[j] == init[j];
      ExpectedIsLastFinal(init, i);
    }
  }

  lemma {:induction false} NoneExpected(packets: seq<string>)
    requires forall i :: 0 <= i < |packets| ==> !Final(packets[i])
    ensures Expected(packets).None?
  {
    if packets != [] {
      var init := packets[..|packets| - 1];
      assert forall j :: 0 <= j < |init| ==> packets[j] == init[j];
      NoneExpected(init);
    }
  }

  /** The orders that the packets claim. */
  ghost function Claimed(packets: seq<string>): set<int> {
    set i | 0 <= i < |packets| && Order(packets[i]).Some? :: Order(packets[i]).value
  }

  lemma ClaimedAreKept(packets: seq<string>)
    requires forall p :: p in packets ==> Order(p).Some?
    ensures Ordered(packets).Keys == Claimed(packets)
  {
    forall o ensures o in Ordered(packets).Keys <==> o in Claimed(packets) {
      LastIsKept(packets, o);
    }
  }

  ghost predicate IsUnordered(packet: string) {
    forall j :: 0 <= j < |Pairs(packet)| ==> !IsOrderKey(Pairs(packet)[j].0)
  }

  /** A packet without any order key is malformed. */
  ghost predicate HasUnordered(packets: seq<string>) {
    exists p :: p in packets && IsUnordered(p)
  }

  lemma UnorderedIff(packets: seq<string>)
    ensures HasUnordered(packets) <==> !(forall p :: p in packets ==> Order(p).Some?)
  {
    forall p | p in packets ensures Order(p).None? <==> IsUnordered(p) {
      NoOrderIff(Pairs(p));
    }
  }

  /** The three outcomes of collecting, for any packets. */
  lemma CollectedOutcome(packets: seq<string>)
    ensures Collected(packets) == Err(Malformed) <==> HasUnordered(packets)
    ensures Collected(packets).Ok?
       <==> !HasUnordered(packets) && Expected(packets).Some? && Expected(packets).value != 0
            && Expected(packets).value == |Claimed(packets)|
    ensures Collected(packets) in {Err(Malformed), Err(Incomplete)} || Collected(packets).Ok?
  {
    UnorderedIff(packets);
    if !HasUnordered(packets) { ClaimedAreKept(packets); }
  }

  // ---------------------------------------------------------------- the order of players

  function PlayersListed(players: seq<(string, Player)>): (list: seq<Player>)
    ensures |list| == |players|
  {
    if players == [] then [] else PlayersListed(players[..|players| - 1]) + [players[|players| - 1].1]
  }

  lemma {:induction false} InsertIsStable(sorted: seq<Player>, p: Player)
    ensures Insert(sorted, p) == StableSort.Insert(sorted, p, Number)
  {
    if sorted != [] && Number(p) >= Number(sorted[0]) { InsertIsStable(sorted[1..], p); }
  }

  lemma {:induction false} SortIsStable(players: seq<(string, Player)>)
    ensures SortPlayers(players) == StableSort.Sort(PlayersListed(players), Number)
  {
    if players != [] {
      var init, last := players[..|players| - 1], players[|players| - 1].1;
      SortIsStable(init);
      InsertIsStable(SortPlayers(init), last);
      Text.Init(PlayersListed(init), last);
    }
  }

  /** Players are listed by number, and those of equal number as they were first mentioned. */
  lemma PlayersInOrder(players: seq<(string, Player)>, n: int)
    ensures StableSort.InOrder(SortPlayers(players), Number)
    ensures StableSort.OfKey(SortPlayers(players), Number, n) == StableSort.OfKey(PlayersListed(players), Number, n)
  {
    SortIsStable(players);
    StableSort.SortFacts(PlayersListed(players), Number, n);
  }

  // ---------------------------------------------------------------- clashing keys

  /** There is no list of players left to sort. */
  ghost predicate IsUnfit(acc: Partial) {
    acc.Raised? || acc.playersReplaced
  }

  lemma OtherStaysUnfit(acc: Partial, param: string, value: string)
    requires acc.Partial? && IsUnfit(acc)
    ensures IsUnfit(WithField(acc, param, value))
  {
  }

  lemma AbsorbStaysUnfit(acc: Partial, pair: Pair)
    requires IsUnfit(acc)
    ensures IsUnfit(Absorb(acc, pair))
  {
    var (param, value) := pair;
    if acc.Partial? { OtherStaysUnfit(acc, param, value); }
  }

  lemma PlayersKeyReplaces(acc: Partial, value: string)
    ensures IsUnfit(Absorb(acc, ("players", value)))
  {
    assert "obj_"[0] != "players"[0];
    assert TrailingDigits("players") == 0;
  }

  ghost predicate UnfitAfter(params: seq<Pair>) {
    IsUnfit(AbsorbAll(params))
  }

  lemma UnfitNext(init: seq<Pair>, last: Pair)
    requires UnfitAfter(init) || last.0 == "players"
    ensures UnfitAfter(init + [last])
  {
    Text.Init(init, last);
    if UnfitAfter(init) {
      AbsorbStaysUnfit(AbsorbAll(init), last);
    } else {
      PlayersKeyReplaces(AbsorbAll(init), last.1);
    }
  }

  lemma {:induction false} PlayersKeyUnfit(params: seq<Pair>, i: nat)
    requires i < |params| && params[i].0 == "players"
    ensures UnfitAfter(params)
  {
    var n := |params| - 1;
    Text.InitAndLast(params);
    if i < n { PlayersKeyUnfit(params[..n], i); }
    UnfitNext(params[..n], params[n]);
  }

  /** A parameter of the name that the list of players goes by takes its place, and then there is none to sort. */
  lemma PlayersKeyRaises(params: seq<Pair>, i: nat)
    requires i < |params| && params[i].0 == "players"
    ensures Finish(AbsorbAll(params)) == Err(AttributeError)
  {
    PlayersKeyUnfit(params, i);
  }
}
