/**
 Servers, games and the merging of servers: one transaction moves the games, disables the merged servers,
 re-points servers merged earlier, and rebuilds the game counters, or leaves everything as it was.
 */
module ServerMerging {
  import opened Wrappers
  import opened GameCounters
  import FiniteSets

  type ServerId = int

  datatype Mode = Versus | CoopMode | CoopQmm

  datatype Game = Game(
    server: ServerId,
    at: Moment,
    mode: Mode,
    playerNum: int,
    coopScore: int,
    duration: int)

  datatype Server = Server(
    enabled: bool,
    mergedInto: Option<ServerId>,
    mergedIntoAt: Option<int>,
    mergedStatsAt: Option<int>,
    counters: Counters)

  datatype Db = Db(servers: map<ServerId, Server>, games: map<GameId, Game>)

  datatype MergeError = UnknownServer | MainIsMerged | TooFewServers | MergeIntoItself | NotAllMerged

  function Played(games: map<GameId, Game>): map<GameId, Moment> {
    map g | g in games :: games[g].at
  }

  /** The games a server owns. */
  function GamesOf(games: map<GameId, Game>, s: ServerId): (ids: set<GameId>)
    ensures ids <= games.Keys
  {
    set g | g in games && games[g].server == s
  }

  /** The counters a full recount gives server `s`. */
  function CountersOf(games: map<GameId, Game>, s: ServerId): Counters {
    Recount(Played(games), GamesOf(games, s))
  }

  /** The servers with their counters recounted for `ids`. */
  function Recounted(db: Db, ids: set<ServerId>): map<ServerId, Server> {
    map s | s in db.servers ::
      if s in ids then db.servers[s].(counters := CountersOf(db.games, s)) else db.servers[s]
  }

  predicate IsMerged(db: Db, s: ServerId) {
    s in db.servers && db.servers[s].mergedInto.Some?
  }

  /** The first reason for which a merge is refused, if any. */
  ghost function MergeFailure(db: Db, main: ServerId, merged: seq<ServerId>): Option<MergeError> {
    if !(forall s :: s in [main] + merged ==> s in db.servers) then Some(UnknownServer)
    else if IsMerged(db, main) then Some(MainIsMerged)
    else if merged == [] then Some(TooFewServers)
    else if main in merged then Some(MergeIntoItself)
    else if !(FiniteSets.Distinct(merged) && forall s :: s in merged ==> !IsMerged(db, s)) then Some(NotAllMerged)
    else None
  }

  /** Where the games go. */
  function MovedGames(games: map<GameId, Game>, main: ServerId, merged: seq<ServerId>): map<GameId, Game> {
    map g | g in games :: if games[g].server in merged then games[g].(server := main) else games[g]
  }

  /** One server row after a successful merge, apart from its counters. */
  function Repointed(row: Server, s: ServerId, main: ServerId, merged: seq<ServerId>, now: int): Server {
    if s in merged then row.(enabled := false, mergedInto := Some(main), mergedIntoAt := Some(now))
    else if row.mergedInto.Some? && row.mergedInto.value in merged then row.(mergedInto := Some(main))
    else row
  }

  function RepointedRows(servers: map<ServerId, Server>, main: ServerId, merged: seq<ServerId>, now: int)
    : map<ServerId, Server>
  {
    map s | s in servers :: Repointed(servers[s], s, main, merged, now)
  }

  /** The database after a successful merge. */
  function MergedDb(db: Db, main: ServerId, merged: seq<ServerId>, now: int): Db {
    var games := MovedGames(db.games, main, merged);
    var servers := RepointedRows(db.servers, main, merged, now);
    Db(Recounted(Db(servers, games), {main} + FiniteSets.SetOf(merged)), games)
  }

  /** As many rows are updated as there are ids to merge just when the ids are distinct and all unmerged. */
  lemma AffectedRows(db: Db, merged: seq<ServerId>, affected: set<ServerId>)
    requires forall s :: s in merged ==> s in db.servers
    requires affected == set s | s in merged && !IsMerged(db, s)
    ensures |affected| == |merged| <==> FiniteSets.Distinct(merged) && forall s :: s in merged ==> !IsMerged(db, s)
  {
    var all := FiniteSets.SetOf(merged);
    FiniteSets.DistinctIffFullSize(merged);
    FiniteSets.SubsetSize(affected, all);
    if |affected| == |merged| {
      FiniteSets.SubsetOfEqualSize(affected, all);
      forall s | s in merged ensures !IsMerged(db, s) {
        assert s in all;
      }
    }
    if forall s :: s in merged ==> !IsMerged(db, s) {
      assert affected == all;
    }
  }

  /** Disabling the merged rows and then re-pointing the rows that refer to them repoints every row once. */
  lemma TwoUpdatesRepoint(before: map<ServerId, Server>, affected: set<ServerId>,
                          disabled: map<ServerId, Server>, indirect: set<ServerId>,
                          after: map<ServerId, Server>, main: ServerId, merged: seq<ServerId>, now: int)
    requires main !in merged && (main in before ==> before[main].mergedInto.None?)
    requires forall s :: s in merged ==> s in affected
    requires forall s :: s in affected ==> s in merged
    requires disabled == map s | s in before ::
               if s in affected
               then before[s].(enabled := false, mergedInto := Some(main), mergedIntoAt := Some(now))
               else before[s]
    requires indirect == set s | s in disabled && s != main && disabled[s].mergedInto.Some?
                                 && disabled[s].mergedInto.value in merged
    requires after == map s | s in disabled ::
               if s in indirect then disabled[s].(mergedInto := Some(main)) else disabled[s]
    ensures after == RepointedRows(before, main, merged, now)
  {
    forall s | s in before ensures after[s] == Repointed(before[s], s, main, merged, now) {
      if s in merged {
        assert disabled[s].mergedInto == Some(main);
        assert s !in indirect;
      } else {
        assert disabled[s] == before[s];
      }
    }
  }

  // ---------------------------------------------------------------- what a merge does, row by row

  ghost predicate AllKnown(db: Db, main: ServerId, merged: seq<ServerId>) {
    main in db.servers && forall s :: s in merged ==> s in db.servers
  }

  /** Some server is named twice or is merged already. */
  ghost predicate HasUnmergeable(db: Db, merged: seq<ServerId>) {
    || (exists i, j :: 0 <= i < j < |merged| && merged[i] == merged[j])
    || exists s :: s in merged && s in db.servers && db.servers[s].mergedInto.Some?
  }

  /** Each failure and the rows for which it is raised, every check being made only after those before it. */
  ghost predicate IsFailure(db: Db, main: ServerId, merged: seq<ServerId>, failure: Option<MergeError>) {
    if !AllKnown(db, main, merged) then failure == Some(UnknownServer)
    else if db.servers[main].mergedInto != None then failure == Some(MainIsMerged)
    else if |merged| == 0 then failure == Some(TooFewServers)
    else if main in merged then failure == Some(MergeIntoItself)
    else if HasUnmergeable(db, merged) then failure == Some(NotAllMerged)
    else failure == None
  }

  /** Every row after a merge, from the row before it. */
  ghost predicate ServerMerged(before: Server, after: Server, s: ServerId, main: ServerId, merged: seq<ServerId>,
                            now: int, counters: Counters) {
    && after.mergedStatsAt == before.mergedStatsAt
    && (s == main ==> after == Server(before.enabled, None, before.mergedIntoAt, before.mergedStatsAt, counters))
    && (s in merged ==> after == Server(false, Some(main), Some(now), before.mergedStatsAt, NO_GAMES))
    && (s != main && s !in merged ==>
         if before.mergedInto.Some? && before.mergedInto.value in merged
         then after == Server(before.enabled, Some(main), before.mergedIntoAt, before.mergedStatsAt, before.counters)
         else after == before)
  }

  ghost predicate ServersMerged(before: map<ServerId, Server>, after: map<ServerId, Server>, main: ServerId,
                             merged: seq<ServerId>, now: int, counters: Counters) {
    && after.Keys == before.Keys
    && forall s :: s in before ==> ServerMerged(before[s], after[s], s, main, merged, now, counters)
  }

  /** The games of the merged servers are the main server's, and nothing else about any game is changed. */
  ghost predicate GamesMerged(before: map<GameId, Game>, after: map<GameId, Game>, main: ServerId,
                              merged: seq<ServerId>) {
    && after.Keys == before.Keys
    && forall g :: g in before ==>
      && (before[g].server in merged ==> after[g].server == main)
      && (before[g].server !in merged ==> after[g].server == before[g].server)
      && after[g].at == before[g].at && after[g].mode == before[g].mode && after[g].playerNum == before[g].playerNum
      && after[g].coopScore == before[g].coopScore && after[g].duration == before[g].duration
  }

  lemma FailureIs(db: Db, main: ServerId, merged: seq<ServerId>)
    ensures IsFailure(db, main, merged, MergeFailure(db, main, merged))
  {
    assert AllKnown(db, main, merged) <==> forall s :: s in [main] + merged ==> s in db.servers by {
      assert main in [main] + merged;
    }
  }

  lemma NoGamesLeft(games: map<GameId, Game>, main: ServerId, merged: seq<ServerId>, s: ServerId)
    requires s in merged && main !in merged
    ensures CountersOf(MovedGames(games, main, merged), s) == NO_GAMES
  {
    assert GamesOf(MovedGames(games, main, merged), s) == {};
  }

  lemma ServerIsMerged(db: Db, main: ServerId, merged: seq<ServerId>, now: int, s: ServerId)
    requires MergeFailure(db, main, merged).None? && s in db.servers
    ensures ServerMerged(db.servers[s], MergedDb(db, main, merged, now).servers[s], s, main, merged, now,
                      CountersOf(MovedGames(db.games, main, merged), main))
  {
    if s in merged { NoGamesLeft(db.games, main, merged, s); }
  }

  lemma MergedDbIs(db: Db, main: ServerId, merged: seq<ServerId>, now: int)
    requires MergeFailure(db, main, merged).None?
    ensures var after := MergedDb(db, main, merged, now);
            && ServersMerged(db.servers, after.servers, main, merged, now, CountersOf(after.games, main))
            && GamesMerged(db.games, after.games, main, merged)
  {
    forall s | s in db.servers
      ensures ServerMerged(db.servers[s], MergedDb(db, main, merged, now).servers[s], s, main, merged, now,
                        CountersOf(MovedGames(db.games, main, merged), main))
    {
      ServerIsMerged(db, main, merged, now, s);
    }
  }

  class ServerManager {
    var servers: map<ServerId, Server>
    var games: map<GameId, Game>

    constructor ()
      ensures Database() == Db(map[], map[])
    {
      servers, games := map[], map[];
    }

    function Database(): Db
      reads this
    {
      Db(servers, games)
    }

    /** Recount the counters of the given rows and write them back. */
    method DenormGameStats(ids: seq<ServerId>)
      requires forall s :: s in ids ==> s in servers
      modifies this`servers
      ensures servers == Recounted(old(Database()), FiniteSets.SetOf(ids))
    {
      // the grouped query: one row per server that owns a game
      var statsPerServer := map s | s in FiniteSets.SetOf(ids) && GamesOf(games, s) != {} ::
        (|GamesOf(games, s)|, FiniteSets.Min(GamesOf(games, s)), FiniteSets.Max(GamesOf(games, s)));
      var i := 0;
      while i < |ids|
        invariant 0 <= i <= |ids|
        invariant servers.Keys == old(servers).Keys
        invariant forall s :: s in servers ==>
          servers[s] == if s in ids[..i] then old(servers)[s].(counters := CountersOf(games, s)) else old(servers)[s]
      {
        var s := ids[i];
        assert s in FiniteSets.SetOf(ids);
        var counters := NO_GAMES;
        if s in statsPerServer {
          var (count, first, latest) := statsPerServer[s];
          counters := Counters(count, Some(first), Some(games[first].at), Some(latest), Some(games[latest].at));
        }
        assert counters == CountersOf(games, s);
        assert ids[..i + 1] == ids[..i] + [s];
        servers := servers[s := servers[s].(counters := counters)];
        i := i + 1;
      }
      assert ids[..|ids|] == ids;
      assert forall s :: s in servers ==> servers[s] == Recounted(old(Database()), FiniteSets.SetOf(ids))[s];
    }

    /** Advance the counters of the game's server by one game. */
    method UpdateGameStatsWithGame(g: GameId)
      requires g in games
      modifies this`servers
      ensures servers == (map s | s in old(servers) ::
                if s == games[g].server
                then old(servers)[s].(counters := Advance(old(servers)[s].counters, g, games[g].at))
                else old(servers)[s])
    {
      var s, at := games[g].server, games[g].at;
      if s in servers && servers[s].counters.first == None {
        servers := servers[s := servers[s].(counters := servers[s].counters.(first := Some(g), firstAt := Some(at)))];
      }
      if s in servers && servers[s].counters.latest != Some(g) {
        var c := servers[s].counters;
        c := c.(count := c.count + 1, latest := Some(g), latestAt := Some(at));
        servers := servers[s := servers[s].(counters := c)];
      }
    }

    /**
     Merge servers into `main`: either every part happens, or the failure is returned and, the transaction
     being rolled back, nothing changes.
     */
    method MergeServers(main: ServerId, merged: seq<ServerId>, now: int) returns (failure: Option<MergeError>)
      modifies this
      ensures failure == MergeFailure(old(Database()), main, merged)
      ensures Database() == if failure.None? then MergedDb(old(Database()), main, merged, now) else old(Database())
      ensures IsFailure(old(Database()), main, merged, failure)
      ensures failure.None? ==>
                && ServersMerged(old(servers), servers, main, merged, now, CountersOf(games, main))
                && GamesMerged(old(games), games, main, merged)
    {
      FailureIs(Database(), main, merged);
      if MergeFailure(Database(), main, merged).None? { MergedDbIs(Database(), main, merged, now); }
      if !(forall s :: s in [main] + merged ==> s in servers) { return Some(UnknownServer); }
      if servers[main].mergedInto.Some? { return Some(MainIsMerged); }
      if merged == [] { return Some(TooFewServers); }
      if main in merged { return Some(MergeIntoItself); }

      var savedServers, savedGames := servers, games;
      failure := UpdateReferences(main, merged, now);
      if failure.Some? {
        servers, games := savedServers, savedGames;
        return;
      }
      assert FiniteSets.SetOf([main] + merged) == {main} + FiniteSets.SetOf(merged);
      DenormGameStats([main] + merged);
    }

    /** The statements of the merge transaction up to the recount; on error they are half done. */
    method UpdateReferences(main: ServerId, merged: seq<ServerId>, now: int) returns (failure: Option<MergeError>)
      requires main in servers && !IsMerged(Database(), main) && main !in merged
      requires forall s :: s in merged ==> s in servers
      modifies this
      ensures failure.Some? ==> failure.value == NotAllMerged
      ensures failure.None?
         <==> FiniteSets.Distinct(merged) && forall s :: s in merged ==> !IsMerged(old(Database()), s)
      ensures failure.None? ==> games == MovedGames(old(games), main, merged)
      ensures failure.None? ==> servers == RepointedRows(old(servers), main, merged, now)
    {
      games := map g | g in games ::
        if games[g].server != main && games[g].server in merged then games[g].(server := main) else games[g];

      var affected := set s | s in merged && s != main && s in servers && servers[s].mergedInto == None;
      AffectedRows(Database(), merged, affected);
      servers := map s | s in servers ::
        if s in affected
        then servers[s].(enabled := false, mergedInto := Some(main), mergedIntoAt := Some(now))
        else servers[s];
      if |affected| != |merged| { return Some(NotAllMerged); }

      ghost var disabled := servers;

      var indirect := set s | s in servers && s != main && servers[s].mergedInto.Some?
                              && servers[s].mergedInto.value in merged;
      if indirect != {} {
        servers := map s | s in servers ::
          if s in indirect then servers[s].(mergedInto := Some(main)) else servers[s];
      }
      TwoUpdatesRepoint(old(servers), affected, disabled, indirect, servers, main, merged, now);
      return None;
    }
  }
}
