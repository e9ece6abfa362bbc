/**
 The first and the last game recorded on a profile, and the years that they span: only statistics of those years
 are ever recomputed.
 */
module ProfileSpans {
  import opened Wrappers
  import opened GameCounters
  import Text

  datatype Profile = Profile(
    firstGame: Option<GameId>,
    firstSeen: Option<Moment>,
    lastGame: Option<GameId>,
    lastSeen: Option<Moment>)

  const UNSEEN := Profile(None, None, None, None)

  /** What delivering one game does to a profile: the first stays, the last is whichever comes last. */
  function Seen(p: Profile, g: GameId, at: Moment): Profile {
    var p := if p.firstGame.None? then p.(firstGame := Some(g), firstSeen := Some(at)) else p;
    if p.lastGame != Some(g) then p.(lastGame := Some(g), lastSeen := Some(at)) else p
  }

  /** The year is not over before the profile's first game and has begun by its last. */
  predicate Actual(p: Profile, year: int) {
    && !(p.firstSeen.Some? && year < p.firstSeen.value.year)
    && !(p.lastSeen.Some? && year > p.lastSeen.value.year)
  }

  /** A profile after a sequence of deliveries. */
  function Delivered(played: map<GameId, Moment>, gs: seq<GameId>): Profile
    requires forall g :: g in gs ==> g in played
  {
    if gs == [] then UNSEEN
    else Seen(Delivered(played, gs[..|gs| - 1]), gs[|gs| - 1], played[gs[|gs| - 1]])
  }

  /** The dates are those of the games delivered first and last, whatever dates lie between. */
  lemma {:induction false} FirstAndLastDelivered(played: map<GameId, Moment>, gs: seq<GameId>)
    requires gs != [] && forall g :: g in gs ==> g in played
    ensures Delivered(played, gs)
         == Profile(Some(gs[0]), Some(played[gs[0]]), Some(gs[|gs| - 1]), Some(played[gs[|gs| - 1]]))
  {
    if |gs| > 1 {
      FirstAndLastDelivered(played, gs[..|gs| - 1]);
    }
  }

  /** The year of every delivered game is one that is recomputed. */
  ghost predicate Covers(played: map<GameId, Moment>, gs: seq<GameId>)
    requires forall g :: g in gs ==> g in played
  {
    forall g :: g in gs ==> Actual(Delivered(played, gs), played[g].year)
  }

  ghost predicate CoversThroughout(played: map<GameId, Moment>, gs: seq<GameId>)
    requires forall g :: g in gs ==> g in played
  {
    Covers(played, gs) && (gs != [] ==> CoversThroughout(played, gs[..|gs| - 1]))
  }

  ghost predicate YearsInOrder(played: map<GameId, Moment>, gs: seq<GameId>)
    requires forall i :: 0 <= i < |gs| ==> gs[i] in played
  {
    forall i, j :: 0 <= i < j < |gs| ==> played[gs[i]].year <= played[gs[j]].year
  }

  /** A profile spans the years of its games after every delivery if and only if games arrive in order of years. */
  lemma {:induction false} CoversIffYearsInOrder(played: map<GameId, Moment>, gs: seq<GameId>)
    requires forall g :: g in gs ==> g in played
    ensures CoversThroughout(played, gs) <==> YearsInOrder(played, gs)
  {
    if gs != [] {
      var n := |gs| - 1;
      var init := gs[..n];
      CoversIffYearsInOrder(played, init);
      FirstAndLastDelivered(played, gs);
      Text.InitAndLast(gs);
      assert forall i :: 0 <= i < n ==> init[i] == gs[i];
      if YearsInOrder(played, init) {
        LastYearGreatest(played, gs);
      }
    }
  }

  lemma LastYearGreatest(played: map<GameId, Moment>, gs: seq<GameId>)
    requires gs != [] && (forall g :: g in gs ==> g in played) && (forall i :: 0 <= i < |gs| ==> gs[i] in played)
    requires YearsInOrder(played, gs[..|gs| - 1])
    ensures Covers(played, gs) <==> YearsInOrder(played, gs)
  {
    FirstAndLastDelivered(played, gs);
    var n := |gs| - 1;
    assert forall i :: 0 <= i < n ==> gs[..n][i] == gs[i];
    if Covers(played, gs) {
      assert forall i :: 0 <= i < n ==> gs[i] in gs;
    }
    if YearsInOrder(played, gs) {
      forall g | g in gs ensures Actual(Delivered(played, gs), played[g].year) {
        var i :| 0 <= i < |gs| && gs[i] == g;
      }
    }
  }
}
