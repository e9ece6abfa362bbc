/**
 The denormalised game counters that servers and maps carry, kept in two ways: recounted from the game
 table, and advanced game by game.  The game-by-game form is exact only for games that arrive in id order;
 the lemmas say so for every input.
 */
module GameCounters {
  import opened Wrappers
  import Text
  import FiniteSets

  type GameId = int

  /** A point in time: the calendar year and the position inside that year. */
  datatype Moment = Moment(year: int, tick: int)

  datatype Counters = Counters(
    count: nat,
    first: Option<GameId>,
    firstAt: Option<Moment>,
    latest: Option<GameId>,
    latestAt: Option<Moment>)

  const NO_GAMES := Counters(0, None, None, None, None)

  /** What `denorm_game_stats` stores for an owner of exactly the games `ids`. */
  function Recount(played: map<GameId, Moment>, ids: set<GameId>): Counters
    requires ids <= played.Keys
  {
    if ids == {} then NO_GAMES
    else
      var first, latest := FiniteSets.Min(ids), FiniteSets.Max(ids);
      Counters(|ids|, Some(first), Some(played[first]), Some(latest), Some(played[latest]))
  }

  /** A recount in its own terms: how many games, and the oldest and the newest with their times. */
  lemma RecountMeans(played: map<GameId, Moment>, ids: set<GameId>)
    requires ids <= played.Keys
    ensures var c := Recount(played, ids);
            && c.count == |ids|
            && (ids == {} <==> c.first.None?) && (ids == {} <==> c.latest.None?)
            && (ids == {} <==> c.firstAt.None?) && (ids == {} <==> c.latestAt.None?)
            && (ids != {} ==>
                 && c.first.value in ids && c.firstAt == Some(played[c.first.value])
                 && c.latest.value in ids && c.latestAt == Some(played[c.latest.value])
                 && forall x :: x in ids ==> c.first.value <= x <= c.latest.value)
  {
  }

  /** What `update_game_stats_with_game` stores: two filtered updates of the same row. */
  function Advance(c: Counters, g: GameId, at: Moment): Counters {
    var c := if c.first.None? then c.(first := Some(g), firstAt := Some(at)) else c;
    if c.latest != Some(g) then c.(count := c.count + 1, latest := Some(g), latestAt := Some(at)) else c
  }

  /**
   Advancing counters that are exact for `ids` by game `g` gives counters exact for `ids + {g}` just when no
   counted game is newer than `g`.
   */
  lemma AdvanceExactIff(played: map<GameId, Moment>, ids: set<GameId>, g: GameId)
    requires ids <= played.Keys && g in played
    ensures Advance(Recount(played, ids), g, played[g]) == Recount(played, ids + {g})
       <==> (forall x :: x in ids ==> x <= g)
  {
    var both := ids + {g};
    var next := Advance(Recount(played, ids), g, played[g]);
    if forall x :: x in ids ==> x <= g {
      assert FiniteSets.Max(both) == g;
      if ids == {} {
        assert both == {g};
      } else {
        assert FiniteSets.Min(ids) in both;
        assert FiniteSets.Min(both) == FiniteSets.Min(ids);
        if g in ids {
          assert both == ids;
        }
      }
    } else {
      assert FiniteSets.Max(ids) in both;
      if g in ids {
        assert both == ids;
        assert next.count == |ids| + 1;
      } else {
        assert next.latest == Some(g);
      }
    }
  }

  /** The counters after a sequence of deliveries, starting from a fresh owner. */
  function Feed(played: map<GameId, Moment>, gs: seq<GameId>): Counters
    requires forall g :: g in gs ==> g in played
  {
    if gs == [] then NO_GAMES
    else
      var last := gs[|gs| - 1];
      Advance(Feed(played, gs[..|gs| - 1]), last, played[last])
  }

  /** Another game is delivered than just before. */
  predicate IsChange(gs: seq<GameId>, i: nat) {
    i < |gs| && (i == 0 || gs[i] != gs[i - 1])
  }

  function Changes(gs: seq<GameId>): set<nat> {
    set i: nat | i < |gs| && IsChange(gs, i)
  }

  lemma OneMoreChange(gs: seq<GameId>)
    requires gs != []
    ensures var n := |gs| - 1;
            |Changes(gs)| == |Changes(gs[..n])| + if n == 0 || gs[n] != gs[n - 1] then 1 else 0
  {
    var n := |gs| - 1;
    forall i: nat | i < n ensures IsChange(gs[..n], i) <==> IsChange(gs, i) {}
    assert Changes(gs) == Changes(gs[..n]) + if IsChange(gs, n) then {n} else {};
  }

  /**
   What deliveries leave, in any order and with any repetitions: the first one delivered, the last one delivered, and
   the number of deliveries other than of the game delivered just before.
   */
  lemma {:induction false} FedCounters(played: map<GameId, Moment>, gs: seq<GameId>)
    requires gs != [] && forall g :: g in gs ==> g in played
    ensures var c := Feed(played, gs);
            && c.first == Some(gs[0]) && c.firstAt == Some(played[gs[0]])
            && c.latest == Some(gs[|gs| - 1]) && c.latestAt == Some(played[gs[|gs| - 1]])
            && c.count == |Changes(gs)|
  {
    OneMoreChange(gs);
    if |gs| > 1 {
      FedCounters(played, gs[..|gs| - 1]);
    } else {
      assert Changes(gs[..0]) == {};
    }
  }

  ghost predicate InIdOrder(gs: seq<GameId>) {
    forall i, j :: 0 <= i < j < |gs| ==> gs[i] <= gs[j]
  }

  /** The counters equal a full recount of the delivered games after each delivery. */
  ghost predicate ExactThroughout(played: map<GameId, Moment>, gs: seq<GameId>)
    requires forall g :: g in gs ==> g in played
  {
    && Feed(played, gs) == Recount(played, FiniteSets.SetOf(gs))
    && (gs != [] ==> ExactThroughout(played, gs[..|gs| - 1]))
  }

  /**
   Deliveries keep the counters exact after every step just when the games arrive in increasing id order,
   each repeated at most while it is still the latest.
   */
  lemma {:induction false} FeedExactIff(played: map<GameId, Moment>, gs: seq<GameId>)
    requires forall g :: g in gs ==> g in played
    ensures ExactThroughout(played, gs) <==> InIdOrder(gs)
  {
    if gs == [] {
    } else {
      var n := |gs| - 1;
      var init, last := gs[..n], gs[n];
      FeedExactIff(played, init);
      Text.InitAndLast(gs);
      LastIsGreatest(init, last);
      if ExactThroughout(played, init) { OneMoreFed(played, init, last, gs); }
    }
  }

  /** One more delivery keeps the counters exact just when no game delivered before is newer. */
  lemma OneMoreFed(played: map<GameId, Moment>, init: seq<GameId>, last: GameId, gs: seq<GameId>)
    requires gs == init + [last] && forall g :: g in gs ==> g in played
    requires Feed(played, init) == Recount(played, FiniteSets.SetOf(init))
    ensures Feed(played, gs) == Recount(played, FiniteSets.SetOf(gs)) <==> forall x :: x in init ==> x <= last
  {
    Text.Init(init, last);
    assert FiniteSets.SetOf(gs) == FiniteSets.SetOf(init) + {last};
    AdvanceExactIff(played, FiniteSets.SetOf(init), last);
  }

  lemma LastIsGreatest(init: seq<GameId>, last: GameId)
    ensures InIdOrder(init + [last]) <==> InIdOrder(init) && forall x :: x in init ==> x <= last
  {
    var gs := init + [last];
    assert forall i :: 0 <= i < |init| ==> gs[i] == init[i] && init[i] in init;
    assert gs[|init|] == last;
  }
}
