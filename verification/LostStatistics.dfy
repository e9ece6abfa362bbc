/**
 A run that loses statistics: a game of last year, delivered after this year's first game, leaves the profile with
 no actual year, and the next merge of its server deletes what it had earned.
 */
module LostStatistics {
  import opened Wrappers
  import opened Categories
  import opened GameCounters
  import opened ServerMerging
  import opened PlayerTotals
  import opened ProfileSpans
  import opened MergeRuns
  import opened MergedStats
  import opened MergedStatsRuns
  import opened ConservationRuns
  import FiniteSets
  import Text

  const FRESH := Server(true, None, None, None, NO_GAMES)
  const NEW_GAME := Game(2, Moment(2024, 0), Versus, 16, 0, 0)
  const OLD_GAME := Game(2, Moment(2023, 9), Versus, 16, 0, 0)
  const NEW_SCORE := Player(1, 7, 10, 600, 0, 0, 0, 0, 0)
  const OLD_SCORE := Player(2, 7, 5, 600, 0, 0, 0, 0, 0)

  const LOSING: seq<Step> := [
    Track(CreateServer(1)), Track(CreateServer(2)),
    Track(SaveGame(1, NEW_GAME)), SavePlayer(1, NEW_SCORE), SeeGame(1), UpdateStats(7),
    Track(SaveGame(2, OLD_GAME)), SavePlayer(2, OLD_SCORE), SeeGame(2),
    Track(Merge(1, [2], 5))]

  const IN_2024 := PlayerYear(2, 7, 2024)

  /** The first n steps are allowed and lead to this archive. */
  ghost predicate Reached(n: nat, a: Archive)
    requires n <= |LOSING|
  {
    AllAllowed(NOTHING, LOSING[..n]) && TakeAll(NOTHING, LOSING[..n]) == a
  }

  lemma Advance(n: nat, a: Archive, step: Step, b: Archive)
    requires n < |LOSING| && LOSING[n] == step && Reached(n, a) && Allowed(a, step) && Take(a, step) == b
    ensures Reached(n + 1, b)
  {
    Text.PrefixOfPrefix(LOSING, n + 1, n);
  }

  const SEEN_NEW := Profile(Some(1), Some(NEW_GAME.at), Some(1), Some(NEW_GAME.at))
  const SEEN_BOTH := Profile(Some(1), Some(NEW_GAME.at), Some(2), Some(OLD_GAME.at))
  const DB_EMPTY := Db(map[1 := FRESH, 2 := FRESH], map[])
  const DB_NEW := Db(map[1 := FRESH, 2 := FRESH], map[1 := NEW_GAME])
  const DB_BOTH := Db(map[1 := FRESH, 2 := FRESH], map[1 := NEW_GAME, 2 := OLD_GAME])

  /** The archive with these games tracked, on server 2. */
  ghost function Tracking(a: Archive, db: Db): Archive {
    a.(tracked := Tracked(db, map g | g in db.games :: 2, {}, {}))
  }

  /** On server s the player's score of 2024 stands at 10, whichever of the two games are saved there. */
  lemma ScoreStands(games: map<GameId, Game>, players: map<PlayerId, Player>, s: ServerId)
    requires players == map[1 := NEW_SCORE] || players == map[1 := NEW_SCORE, 2 := OLD_SCORE]
    requires 1 in games && games[1] == NEW_GAME.(server := s)
    requires 2 in games ==> games[2].at == OLD_GAME.at
    ensures Standing(games, players, {s}, 7, 2024, Score) == Some(10.0)
  {
    var column := Column(games, players, {s}, 7, 2024, Score);
    assert 1 in column && column[1] == 10;
    assert forall p :: p in column ==> p == 1;
    assert column.Keys == {1};
    assert FiniteSets.Min(column.Keys) == 1;
    assert (column - {1}).Keys == {};
    assert Sum(column - {1}) == 0;
    assert Sum(column) == 10;
  }

  const WORLD_2024 := World(DB_NEW, map[1 := NEW_SCORE], map[7 := SEEN_NEW], map[])

  lemma PlayedThere()
    ensures PlayedOn(WORLD_2024, 7, 2024) == {IN_2024}
  {
    var w := WORLD_2024;
    assert Counts(w.db.games, w.players[1], w.db.servers.Keys, 7, 2024);
    assert forall t :: t in PlayedOn(w, 7, 2024) <==> t == IN_2024;
  }

  lemma StoredThere()
    ensures var table := ProfileUpdated(WORLD_2024, 7, 2024).table;
            && KeyFor(IN_2024, Score) in table && table[KeyFor(IN_2024, Score)] == 10.0
            && (forall k :: k in table ==> YearOf(k) == Some(IN_2024))
  {
    var w, k := WORLD_2024, KeyFor(IN_2024, Score);
    PlayedThere();
    ScoreStands(w.db.games, w.players, 2);
    RefreshIffPositive(w, IN_2024, Score);
    forall l ensures l in ProfileUpdated(w, 7, 2024).table <==> YearOf(l) == Some(IN_2024) && l in Refresh(w, IN_2024) {
      RefreshAllAt(w, {IN_2024}, l);
    }
    RefreshAllAt(w, {IN_2024}, k);
  }

  lemma SeenAgain()
    ensures GameSeen(map[7 := SEEN_NEW], map[1 := NEW_SCORE, 2 := OLD_SCORE], 2, OLD_GAME.at) == map[7 := SEEN_BOTH]
  {
    var players := map[1 := NEW_SCORE, 2 := OLD_SCORE];
    assert 2 in players && players[2].game == 2 && players[2].profile == 7;
    assert PlayedIn(players, 7, 2);
    FiniteSets.MapsEqual(GameSeen(map[7 := SEEN_NEW], players, 2, OLD_GAME.at), map[7 := SEEN_BOTH]);
  }

  lemma MergedThere()
    ensures MergeFailure(DB_BOTH, 1, [2]) == None
    ensures var db := MergedDb(DB_BOTH, 1, [2], 5);
            && db.games == map[1 := NEW_GAME.(server := 1), 2 := OLD_GAME.(server := 1)]
            && 2 in Pending(db) && 1 !in Pending(db) && db.servers[2].mergedInto == Some(1)
  {
    GamesThere();
    PendingThere();
  }

  lemma GamesThere()
    ensures MovedGames(DB_BOTH.games, 1, [2]) == map[1 := NEW_GAME.(server := 1), 2 := OLD_GAME.(server := 1)]
  {
    FiniteSets.MapsEqual(MovedGames(DB_BOTH.games, 1, [2]),
                         map[1 := NEW_GAME.(server := 1), 2 := OLD_GAME.(server := 1)]);
  }

  lemma PendingThere()
    ensures var db := MergedDb(DB_BOTH, 1, [2], 5);
            2 in Pending(db) && 1 !in Pending(db) && db.servers[2].mergedInto == Some(1)
  {
    var db := MergedDb(DB_BOTH, 1, [2], 5);
    assert 1 in db.servers && db.servers[1].mergedInto == None;
    assert 2 in db.servers && db.servers[2].mergedInto == Some(1) && db.servers[2].mergedStatsAt == None;
  }

  ghost const WORLD_MERGED := World(
    MergedDb(DB_BOTH, 1, [2], 5), map[1 := NEW_SCORE, 2 := OLD_SCORE], map[7 := SEEN_BOTH],
    ProfileUpdated(WORLD_2024, 7, 2024).table)

  lemma LostThere(later: int)
    ensures Standing(WORLD_MERGED.db.games, WORLD_MERGED.players, {1}, 7, 2024, Score) == Some(10.0)
    ensures var after := StatsMerged(WORLD_MERGED, later).table;
            KeyFor(IN_2024, Score) !in after && KeyFor(PlayerYear(1, 7, 2024), Score) !in after
  {
    MergedThere();
    StoredThere();
    ScoreStands(WORLD_MERGED.db.games, WORLD_MERGED.players, 1);
    StatsLostOutsideSeenYears(WORLD_MERGED, later, KeyFor(IN_2024, Score), Score);
  }

  // ---------------------------------------------------------------- step by step

  ghost const SERVERS := Tracking(NOTHING, DB_EMPTY)
  ghost const SAVED := Tracking(NOTHING, DB_NEW)
  ghost const PLAYED := SAVED.(players := map[1 := NEW_SCORE], profiles := map[7 := UNSEEN])
  ghost const SEEN := PLAYED.(profiles := map[7 := SEEN_NEW])
  ghost const STORED := SEEN.(table := ProfileUpdated(WORLD_2024, 7, 2024).table)
  ghost const SAVED_LATE := Tracking(STORED, DB_BOTH)
  ghost const PLAYED_LATE := SAVED_LATE.(players := map[1 := NEW_SCORE, 2 := OLD_SCORE])
  ghost const SEEN_LATE := PLAYED_LATE.(profiles := map[7 := SEEN_BOTH])
  ghost const MERGED := Take(SEEN_LATE, Track(Merge(1, [2], 5)))

  lemma ServersCreated()
    ensures Reached(2, SERVERS)
  {
    var once := Take(NOTHING, Track(CreateServer(1)));
    Text.EmptyPrefix(LOSING);
    Advance(0, NOTHING, Track(CreateServer(1)), once);
    assert Take(once, Track(CreateServer(2))) == SERVERS;
    Advance(1, once, Track(CreateServer(2)), SERVERS);
  }

  /** Saving a game to server 2, which is not merged. */
  lemma GameSaved(a: Archive, before: Db, after: Db, g: GameId, game: Game)
    requires a == Tracking(a, before) && g !in before.games && game.server == 2
    requires 2 in before.servers && before.servers[2] == FRESH && after == before.(games := before.games[g := game])
    ensures var step := Track(SaveGame(g, game)); Allowed(a, step) && Take(a, step) == Tracking(a, after)
  {
    FiniteSets.MapsEqual(a.tracked.origin[g := 2], map h | h in after.games :: 2);
  }

  lemma QuietAllowed(a: Archive, step: Step)
    requires step.SavePlayer? || step.SeeGame? || step.UpdateStats?
    ensures Allowed(a, step)
  {
  }

  lemma NewGameSaved()
    ensures Reached(4, PLAYED)
  {
    ServersCreated();
    GameSaved(SERVERS, DB_EMPTY, DB_NEW, 1, NEW_GAME);
    Advance(2, SERVERS, Track(SaveGame(1, NEW_GAME)), SAVED);
    QuietAllowed(SAVED, SavePlayer(1, NEW_SCORE));
    Advance(3, SAVED, SavePlayer(1, NEW_SCORE), PLAYED);
  }

  lemma SeenFirst()
    ensures Take(PLAYED, SeeGame(1)) == SEEN
  {
    assert 1 in PLAYED.players && PLAYED.players[1].game == 1 && PLAYED.players[1].profile == 7;
    assert PlayedIn(PLAYED.players, 7, 1);
    FiniteSets.MapsEqual(GameSeen(map[7 := UNSEEN], PLAYED.players, 1, NEW_GAME.at), map[7 := SEEN_NEW]);
  }

  lemma NewGameSeen()
    ensures Reached(5, SEEN)
  {
    NewGameSaved();
    SeenFirst();
    QuietAllowed(PLAYED, SeeGame(1));
    Advance(4, PLAYED, SeeGame(1), SEEN);
  }

  lemma Updated2024(a: Archive)
    requires WorldOf(a) == WORLD_2024
    ensures Take(a, UpdateStats(7)) == a.(table := ProfileUpdated(WORLD_2024, 7, 2024).table)
  {
  }

  lemma StatsStored()
    ensures Reached(6, STORED)
  {
    NewGameSeen();
    assert WorldOf(SEEN) == WORLD_2024;
    Updated2024(SEEN);
    QuietAllowed(SEEN, UpdateStats(7));
    Advance(5, SEEN, UpdateStats(7), STORED);
  }

  lemma OldGameSaved()
    ensures Reached(8, PLAYED_LATE)
  {
    StatsStored();
    GameSaved(STORED, DB_NEW, DB_BOTH, 2, OLD_GAME);
    Advance(6, STORED, Track(SaveGame(2, OLD_GAME)), SAVED_LATE);
    QuietAllowed(SAVED_LATE, SavePlayer(2, OLD_SCORE));
    Advance(7, SAVED_LATE, SavePlayer(2, OLD_SCORE), PLAYED_LATE);
  }

  lemma OldGameSeen()
    ensures Reached(9, SEEN_LATE)
  {
    OldGameSaved();
    SeenAgain();
    QuietAllowed(PLAYED_LATE, SeeGame(2));
    Advance(8, PLAYED_LATE, SeeGame(2), SEEN_LATE);
  }

  lemma MergeTaken(a: Archive)
    requires MergeFailure(a.tracked.db, 1, [2]) == None && a.clock <= 5
    ensures var step := Track(Merge(1, [2], 5));
            Allowed(a, step) && WorldOf(Take(a, step)) == WorldOf(a).(db := MergedDb(a.tracked.db, 1, [2], 5))
  {
  }

  lemma ServerMerged()
    ensures Reached(10, MERGED) && WorldOf(MERGED) == WORLD_MERGED
  {
    OldGameSeen();
    MergedThere();
    MergeTaken(SEEN_LATE);
    Advance(9, SEEN_LATE, Track(Merge(1, [2], 5)), MERGED);
  }

  lemma RunReached()
    ensures AllAllowed(NOTHING, LOSING) && TakeAll(NOTHING, LOSING) == MERGED
    ensures AllAllowed(NOTHING, LOSING[..9]) && TakeAll(NOTHING, LOSING[..9]) == SEEN_LATE
  {
    OldGameSeen();
    ServerMerged();
    Text.FullPrefix(LOSING);
  }

  /**
   The run is allowed; before the merge the profile has a score of 10 for 2024 stored on server 2; afterwards its
   games on server 1 still amount to that score, but the statistics task leaves it stored nowhere.
   */
  lemma ScoreLost(later: int)
    ensures AllAllowed(NOTHING, LOSING) && AllAllowed(NOTHING, LOSING[..9])
    ensures var a, k := TakeAll(NOTHING, LOSING[..9]), KeyFor(IN_2024, Score); k in a.table && a.table[k] == 10.0
    ensures var a := TakeAll(NOTHING, LOSING);
            var after := Take(a, MergeStats(later)).table;
            && Standing(a.tracked.db.games, a.players, {1}, 7, 2024, Score) == Some(10.0)
            && KeyFor(IN_2024, Score) !in after && KeyFor(PlayerYear(1, 7, 2024), Score) !in after
  {
    RunReached();
    StoredThere();
    ServerMerged();
    LostThere(later);
    TakenStats(MERGED, later);
  }
}
