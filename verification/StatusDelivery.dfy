/**
 Reassembly is exact.  Whatever the order of arrival and however often packets are repeated, the response of a
 well-formed sender is complete just when every packet has arrived, and is then the packets in sending order.
 */
module StatusDelivery {
  import opened Wrappers
  import opened StatusQuery
  import FiniteSets
  import Text

  /** Packet i claims order i + 1, and only the last one is final. */
  ghost predicate WellFormed(sent: seq<string>) {
    sent != [] && forall i :: 0 <= i < |sent| ==> Claims(sent[i], i, |sent|)
  }

  /** The packet claims to be number i + 1, and to be the last just when it is the last of n. */
  ghost predicate Claims(packet: string, i: nat, n: nat) {
    Order(packet) == Some(i + 1) && (Final(packet) <==> i == n - 1)
  }

  /** What arrives when the packets with these indices arrive one after another. */
  function Delivered(sent: seq<string>, indices: seq<nat>): (packets: seq<string>)
    requires forall k :: 0 <= k < |indices| ==> indices[k] < |sent|
    ensures |packets| == |indices| && forall k :: 0 <= k < |indices| ==> packets[k] == sent[indices[k]]
  {
    if indices == [] then []
    else Delivered(sent, indices[..|indices| - 1]) + [sent[indices[|indices| - 1]]]
  }

  ghost predicate AllArrived(sent: seq<string>, indices: seq<nat>) {
    forall i: nat :: i < |sent| ==> i in indices
  }

  /** The normalized packets in sending order. */
  function InSendingOrder(sent: seq<string>): string {
    if sent == [] then "" else Normalize(sent[0]) + InSendingOrder(sent[1..])
  }

  /** The orders present are those of the packets that arrived, each with its packet. */
  ghost predicate Mirrors(sent: seq<string>, ordered: map<int, string>, indices: seq<nat>) {
    && (forall o :: o in ordered ==> 1 <= o <= |sent| && ordered[o] == sent[o - 1])
    && (forall i: nat :: i < |sent| ==> (i + 1 in ordered <==> i in indices))
  }

  lemma {:induction false} OrderedDelivered(sent: seq<string>, indices: seq<nat>)
    requires WellFormed(sent) && forall k :: 0 <= k < |indices| ==> indices[k] < |sent|
    ensures forall p :: p in Delivered(sent, indices) ==> Order(p).Some?
    ensures Mirrors(sent, Ordered(Delivered(sent, indices)), indices)
  {
    if indices != [] {
      var n := |indices| - 1;
      var packet := sent[indices[n]];
      OrderedDelivered(sent, indices[..n]);
      assert Claims(packet, indices[n], |sent|);
      OrderedOneMore(Delivered(sent, indices[..n]), packet);
      MirrorsOneMore(sent, Ordered(Delivered(sent, indices[..n])), indices[..n], indices[n], Order(packet).value);
      Text.InitAndLast(indices);
    }
  }

  lemma OrderedOneMore(before: seq<string>, packet: string)
    requires (forall p :: p in before ==> Order(p).Some?) && Order(packet).Some?
    ensures forall p :: p in before + [packet] ==> Order(p).Some?
    ensures Ordered(before + [packet]) == Ordered(before)[Order(packet).value := packet]
  {
    Text.Init(before, packet);
  }

  lemma MirrorsOneMore(sent: seq<string>, ordered: map<int, string>, indices: seq<nat>, i: nat, order: int)
    requires Mirrors(sent, ordered, indices) && i < |sent| && order == i + 1
    ensures Mirrors(sent, ordered[order := sent[i]], indices + [i])
  {
  }

  lemma {:induction false} ExpectedDelivered(sent: seq<string>, indices: seq<nat>)
    requires WellFormed(sent) && forall k :: 0 <= k < |indices| ==> indices[k] < |sent|
    ensures Expected(Delivered(sent, indices)) == if |sent| - 1 in indices then Some(|sent|) else None
  {
    if indices != [] {
      var n := |indices| - 1;
      ExpectedDelivered(sent, indices[..n]);
      assert Delivered(sent, indices)[..n] == Delivered(sent, indices[..n]);
      assert forall i: nat :: i in indices <==> i in indices[..n] || i == indices[n];
    }
  }

  lemma {:induction false} AssembleRange(sent: seq<string>, ordered: map<int, string>, from: nat)
    requires from <= |sent|
    requires forall o :: o in ordered <==> from < o <= |sent|
    requires forall o :: o in ordered ==> ordered[o] == sent[o - 1]
    ensures Assemble(ordered) == InSendingOrder(sent[from..])
    decreases |sent| - from
  {
    if from == |sent| {
      assert ordered.Keys == {};
    } else {
      assert from + 1 in ordered;
      assert FiniteSets.Min(ordered.Keys) == from + 1;
      AssembleRange(sent, ordered - {from + 1}, from + 1);
      assert sent[from..][1..] == sent[from + 1..];
    }
  }

  /** As many orders as packets were sent are present just when every packet has arrived. */
  lemma FullIffAllArrived(sent: seq<string>, ordered: map<int, string>, indices: seq<nat>)
    requires Mirrors(sent, ordered, indices)
    ensures |ordered| == |sent| <==> AllArrived(sent, indices)
  {
    var orders, all := ordered.Keys, FiniteSets.Upto(|sent|);
    assert orders <= all;
    if |orders| == |sent| {
      FiniteSets.SubsetOfEqualSize(orders, all);
      forall i: nat | i < |sent| ensures i in indices {
        assert i + 1 in all;
      }
    }
    if AllArrived(sent, indices) {
      forall o | o in all ensures o in orders {
        var i: nat := o - 1;
        assert i in indices && i + 1 in ordered;
      }
      assert orders == all;
    }
  }

  /**
   The collected payload for any arrivals of a well-formed sender: incomplete until all have arrived, and then
   the packets in sending order.
   */
  lemma CollectedDelivered(sent: seq<string>, indices: seq<nat>)
    requires WellFormed(sent) && forall k :: 0 <= k < |indices| ==> indices[k] < |sent|
    ensures Collected(Delivered(sent, indices)) ==
            if AllArrived(sent, indices) then Ok(InSendingOrder(sent)) else Err(Incomplete)
  {
    OrderedDelivered(sent, indices);
    ExpectedDelivered(sent, indices);
    FullIffAllArrived(sent, Ordered(Delivered(sent, indices)), indices);
    if AllArrived(sent, indices) {
      var last: nat := |sent| - 1;
      assert last in indices;
      AssembleAll(sent, indices);
    }
  }

  lemma AssembleAll(sent: seq<string>, indices: seq<nat>)
    requires WellFormed(sent) && forall k :: 0 <= k < |indices| ==> indices[k] < |sent|
    requires forall p :: p in Delivered(sent, indices) ==> Order(p).Some?
    requires AllArrived(sent, indices)
    ensures Assemble(Ordered(Delivered(sent, indices))) == InSendingOrder(sent)
  {
    OrderedDelivered(sent, indices);
    AssembleMirror(sent, Ordered(Delivered(sent, indices)), indices);
  }

  lemma AssembleMirror(sent: seq<string>, ordered: map<int, string>, indices: seq<nat>)
    requires Mirrors(sent, ordered, indices) && AllArrived(sent, indices)
    ensures Assemble(ordered) == InSendingOrder(sent)
  {
    forall o | 0 < o <= |sent| ensures o in ordered {
      var i: nat := o - 1;
      assert i in indices;
    }
    AssembleRange(sent, ordered, 0);
    Text.WholeSuffix(sent);
  }

  /**
   The receive loop on any arrivals of a well-formed sender: it times out unless all packets arrive, reads
   exactly up to the datagram that completes the set, and delivers the packets in sending order.
   */
  method ReceiveFromSender(sent: seq<string>, indices: seq<nat>) returns (outcome: Outcome, used: nat)
    requires WellFormed(sent) && forall k :: 0 <= k < |indices| ==> indices[k] < |sent|
    ensures used <= |indices|
    ensures forall k :: 0 <= k < used ==> !AllArrived(sent, indices[..k])
    ensures outcome.TimedOut? <==> !AllArrived(sent, indices)
    ensures AllArrived(sent, indices) ==>
              && AllArrived(sent, indices[..used])
              && outcome == Concluded(Ok(InSendingOrder(sent)))
  {
    var arrivals := Delivered(sent, indices);
    outcome, used := Receive(arrivals);
    forall k | 0 <= k < used ensures !AllArrived(sent, indices[..k]) {
      if k == 0 { assert 0 !in indices[..0]; } else { IncompletePrefix(sent, indices, k); }
    }
    if used > 0 { IncompletePrefix(sent, indices, used); }
    assert indices[..|indices|] == indices;
    if AllArrived(sent, indices[..used]) {
      assert forall i: nat :: i in indices[..used] ==> i in indices;
    }
  }

  /** A prefix of the arrivals is incomplete just when some packet is missing from it. */
  lemma IncompletePrefix(sent: seq<string>, indices: seq<nat>, k: nat)
    requires WellFormed(sent) && (forall i :: 0 <= i < |indices| ==> indices[i] < |sent|) && k <= |indices|
    ensures StillIncomplete(Delivered(sent, indices), k) <==> !AllArrived(sent, indices[..k])
    ensures AllArrived(sent, indices[..k]) ==> Collected(Delivered(sent, indices)[..k]) == Ok(InSendingOrder(sent))
  {
    DeliveredPrefix(sent, indices, k);
    CollectedDelivered(sent, indices[..k]);
  }

  lemma {:induction false} DeliveredPrefix(sent: seq<string>, indices: seq<nat>, k: nat)
    requires (forall i :: 0 <= i < |indices| ==> indices[i] < |sent|) && k <= |indices|
    ensures Delivered(sent, indices)[..k] == Delivered(sent, indices[..k])
  {
    Text.SamePrefix(Delivered(sent, indices), Delivered(sent, indices[..k]), k);
  }
}
