/**
 Per-server statistics: the yearly update of a profile, and the task that later moves the statistics of merged
 servers to the servers they were merged into, re-ranks them and deletes the obsolete rows.
 */
module MergedStats {
  import opened Wrappers
  import opened Categories
  import opened GameCounters
  import opened ServerMerging
  import opened PlayerTotals
  import opened ProfileSpans
  import Stats
  import Leaderboards
  import FiniteSets
  import KeyedTables

  /** One profile's year on one server. */
  datatype PlayerYear = PlayerYear(server: ServerId, profile: ProfileId, year: int)

  datatype World = World(
    db: Db,
    players: map<PlayerId, Player>,
    profiles: map<ProfileId, Profile>,
    table: map<Stats.Key, real>)

  const SERVER_CATEGORIES := {
    Score, Time, Games, Kills, Deaths, Arrests, SpmRatio, SprRatio, TopKillStreak, TopArrestStreak, KdRatio,
    CoopScore, CoopGames, CoopTime
  }

  /** The aggregated figures of a profile's year on a server. */
  function Figures(w: World, t: PlayerYear): map<Category, Option<real>> {
    map c | c in SERVER_CATEGORIES :: Standing(w.db.games, w.players, {t.server}, t.profile, t.year, c)
  }

  function KeyFor(t: PlayerYear, c: Category): Stats.Key {
    Stats.Key(t.year, c, t.profile, Stats.Group(t.server))
  }

  /** What storing the figures of a profile's year on a server adds to the table. */
  ghost function Refresh(w: World, t: PlayerYear): map<Stats.Key, real> {
    if t.profile in w.profiles && Actual(w.profiles[t.profile], t.year)
    then Stats.Keyed(Figures(w, t), t.profile, t.year, Stats.Group(t.server))
    else map[]
  }

  /** The profile's year that a key of the table belongs to, if it is a server's. */
  function YearOf(k: Stats.Key): Option<PlayerYear> {
    if k.group.Group? then Some(PlayerYear(k.group.id, k.profile, k.year)) else None
  }

  /** What storing the figures of several profile years adds to the table. */
  ghost function RefreshAll(w: World, ts: set<PlayerYear>): map<Stats.Key, real> {
    map t, c | t in ts && c in SERVER_CATEGORIES && KeyFor(t, c) in Refresh(w, t) ::
      KeyFor(t, c) := Refresh(w, t)[KeyFor(t, c)]
  }

  /** The merged servers whose statistics have not been moved since they were merged. */
  function Pending(db: Db): set<ServerId> {
    set s | s in db.servers && db.servers[s].mergedInto.Some?
            && (db.servers[s].mergedStatsAt.None?
                || (db.servers[s].mergedIntoAt.Some?
                    && db.servers[s].mergedStatsAt.value < db.servers[s].mergedIntoAt.value))
  }

  predicate OnServers(servers: set<ServerId>, k: Stats.Key) {
    k.group.Group? && k.group.id in servers
  }

  /** The main servers' profile years that gain statistics. */
  ghost function Affected(w: World): set<PlayerYear> {
    set k | k in w.table && OnServers(Pending(w.db), k) ::
      PlayerYear(w.db.servers[k.group.id].mergedInto.value, k.profile, k.year)
  }

  function Stamped(db: Db, servers: set<ServerId>, now: int): Db {
    db.(servers := map s | s in db.servers ::
      if s in servers then db.servers[s].(mergedStatsAt := Some(now)) else db.servers[s])
  }

  ghost function Without(table: map<Stats.Key, real>, servers: set<ServerId>): map<Stats.Key, real> {
    map k | k in table && !OnServers(servers, k) :: table[k]
  }

  /** The world after the task that merges statistics. */
  ghost function StatsMerged(w: World, now: int): World {
    if Pending(w.db) == {} then w
    else w.(db := Stamped(w.db, Pending(w.db), now),
            table := Without(w.table + RefreshAll(w, Affected(w)), Pending(w.db)))
  }

  /** The servers on which the profile played games that count in the year. */
  function PlayedOn(w: World, profile: ProfileId, year: int): set<PlayerYear> {
    set p | p in w.players && Counts(w.db.games, w.players[p], w.db.servers.Keys, profile, year) ::
      PlayerYear(w.db.games[w.players[p].game].server, profile, year)
  }

  /** The world after the yearly update of a profile's per-server statistics. */
  ghost function ProfileUpdated(w: World, profile: ProfileId, year: int): World {
    w.(table := w.table + RefreshAll(w, PlayedOn(w, profile, year)))
  }

  /** The world after the update of a profile's statistics: the year it was last seen in, if it was seen at all. */
  ghost function StatsUpdated(w: World, profile: ProfileId): World {
    if profile in w.profiles && w.profiles[profile].lastSeen.Some?
    then ProfileUpdated(w, profile, w.profiles[profile].lastSeen.value.year)
    else w
  }

  /** Whether one of the profile's players took part in the game. */
  predicate PlayedIn(players: map<PlayerId, Player>, profile: ProfileId, g: GameId) {
    exists p :: p in players && players[p].game == g && players[p].profile == profile
  }

  /** The profiles after a game is delivered to those that played in it. */
  function GameSeen(profiles: map<ProfileId, Profile>, players: map<PlayerId, Player>, g: GameId, at: Moment)
    : map<ProfileId, Profile>
  {
    map p | p in profiles :: if PlayedIn(players, p, g) then Seen(profiles[p], g, at) else profiles[p]
  }

  // ---------------------------------------------------------------- refreshing one more profile year

  lemma RefreshKeys(w: World, t: PlayerYear, k: Stats.Key)
    requires k in Refresh(w, t)
    ensures k == KeyFor(t, k.category) && k.category in SERVER_CATEGORIES
    ensures Standing(w.db.games, w.players, {t.server}, t.profile, t.year, k.category) == Some(Refresh(w, t)[k])
    ensures Refresh(w, t)[k] > 0.0
  {
    assert k.category in Stats.Positive(Figures(w, t));
  }

  lemma RefreshAllAt(w: World, ts: set<PlayerYear>, k: Stats.Key)
    ensures k in RefreshAll(w, ts) <==>
            YearOf(k).Some? && YearOf(k).value in ts && k in Refresh(w, YearOf(k).value)
    ensures k in RefreshAll(w, ts) ==> RefreshAll(w, ts)[k] == Refresh(w, YearOf(k).value)[k]
  {
    if YearOf(k).Some? && k in Refresh(w, YearOf(k).value) {
      RefreshKeys(w, YearOf(k).value, k);
      assert KeyFor(YearOf(k).value, k.category) == k;
    }
  }

  lemma RefreshOneMore(w: World, ts: set<PlayerYear>, t: PlayerYear)
    ensures RefreshAll(w, ts + {t}) == RefreshAll(w, ts) + Refresh(w, t)
  {
    var more, sum := RefreshAll(w, ts + {t}), RefreshAll(w, ts) + Refresh(w, t);
    forall k ensures k in more <==> k in sum
             ensures k in more ==> more[k] == sum[k]
    {
      RefreshAllAt(w, ts + {t}, k);
      RefreshAllAt(w, ts, k);
      if k in Refresh(w, t) { RefreshKeys(w, t, k); }
    }
    FiniteSets.MapsEqual(more, sum);
  }

  lemma RefreshedNone(w: World)
    ensures w.(table := w.table + RefreshAll(w, {})) == w
  {
    assert RefreshAll(w, {}) == map[];
    FiniteSets.MapsEqual(w.table + RefreshAll(w, {}), w.table);
  }

  /** Positions play no part in the points of a table. */
  lemma PointsOfRanked(rows: Stats.Rows, passes: seq<Stats.Ranking>)
    requires Stats.UniqueKeys(rows)
    ensures Stats.UniqueKeys(Leaderboards.RankAll(rows, passes))
    ensures Stats.Points(Leaderboards.RankAll(rows, passes)) == Stats.Points(rows)
    ensures Leaderboards.RankAll(rows, passes).Keys == rows.Keys
  {
    Leaderboards.RankAllKeepsRest(rows, passes);
    var after := Leaderboards.RankAll(rows, passes);
    forall id | id in rows
      ensures Stats.KeyOf(rows[id]) == Stats.KeyOf(after[id]) && Stats.PointsOf(rows[id]) == Stats.PointsOf(after[id])
    {
      assert after[id] == rows[id].(position := after[id].position);
    }
    KeyedTables.IndexSame(rows, after, Stats.KeyOf, Stats.PointsOf);
  }

  /** The rows that are left once the rows of some servers are deleted. */
  function Kept(rows: Stats.Rows, servers: set<ServerId>): Stats.Rows {
    map id | id in rows && !OnServers(servers, Stats.KeyOf(rows[id])) :: rows[id]
  }

  lemma DeletedRows(rows: Stats.Rows, servers: set<ServerId>)
    requires Stats.UniqueKeys(rows)
    ensures Stats.UniqueKeys(Kept(rows, servers))
    ensures Stats.Points(Kept(rows, servers)) == Without(Stats.Points(rows), servers)
  {
    KeyedTables.IndexFilter(rows, Kept(rows, servers), Without(Stats.Points(rows), servers),
                            Stats.KeyOf, Stats.PointsOf, k => !OnServers(servers, k));
  }

  // ---------------------------------------------------------------- positions

  function YearsOf(affected: set<PlayerYear>): set<int> {
    set t | t in affected :: t.year
  }

  /** The servers affected in a year, as the groups of the per-server table. */
  function GroupsOf(affected: set<PlayerYear>, year: int): set<Stats.Group> {
    set t | t in affected && t.year == year :: Stats.Group(t.server)
  }

  /** The pass that re-ranks a category of a year on the affected servers. */
  function PassFor(affected: set<PlayerYear>, year: int, c: Category): Stats.Ranking {
    Leaderboards.ServerPassFor(year, Some(GroupsOf(affected, year)), c)
  }

  /** The table once some years have been ranked for the servers affected in them. */
  ghost function Reranked(rows: Stats.Rows, affected: set<PlayerYear>, years: set<int>): Stats.Rows {
    map id | id in rows ::
      if rows[id].year in years
      then rows[id].(position := Stats.Placed(rows, PassFor(affected, rows[id].year, rows[id].category), id))
      else rows[id]
  }

  lemma RerankedNone(rows: Stats.Rows, affected: set<PlayerYear>)
    ensures Reranked(rows, affected, {}) == rows
  {
    FiniteSets.MapsEqual(Reranked(rows, affected, {}), rows);
  }

  /** Ranking one more year: earlier years play no part in it. */
  lemma RerankedOneMore(rows: Stats.Rows, affected: set<PlayerYear>, done: set<int>, year: int)
    requires year !in done
    ensures Leaderboards.RankAll(Reranked(rows, affected, done),
                                 Leaderboards.ServerPasses(year, Some(GroupsOf(affected, year))))
         == Reranked(rows, affected, done + {year})
  {
    var before := Reranked(rows, affected, done);
    var passes := Leaderboards.ServerPasses(year, Some(GroupsOf(affected, year)));
    var after := Leaderboards.RankAll(before, passes);
    Leaderboards.RankAllKeepsRest(before, passes);
    forall id | id in rows ensures after[id] == Reranked(rows, affected, done + {year})[id] {
      Leaderboards.ServerPassesPlace(before, year, Some(GroupsOf(affected, year)), id);
      if rows[id].year == year {
        assert before[id] == rows[id];
        assert Leaderboards.SameButPositions(rows, before);
        Leaderboards.SamePlaces(rows, before, PassFor(affected, year, rows[id].category), id);
      }
    }
    FiniteSets.MapsEqual(after, Reranked(rows, affected, done + {year}));
  }

  /** The rows once the affected profile years are refreshed: points are upserted, new rows have no position. */
  ghost predicate RefreshedRows(w: World, before: Stats.Rows, refreshed: Stats.Rows) {
    && Stats.OnlyPointsChanged(before, refreshed) && Stats.UniqueKeys(refreshed)
    && Stats.Points(refreshed) == w.table + RefreshAll(w, Affected(w))
  }

  /** What the task does to the rows: refresh, re-rank the affected years, delete. */
  ghost predicate RowsMerged(w: World, before: Stats.Rows, after: Stats.Rows) {
    exists refreshed :: RefreshedRows(w, before, refreshed)
                        && after == Kept(Reranked(refreshed, Affected(w), YearsOf(Affected(w))), Pending(w.db))
  }

  class ServerStatsManager {
    const registry: ServerManager
    const stats: Stats.StatsManager
    var players: map<PlayerId, Player>
    var profiles: map<ProfileId, Profile>

    constructor (registry: ServerManager, stats: Stats.StatsManager)
      ensures this.registry == registry && this.stats == stats && players == map[] && profiles == map[]
    {
      this.registry, this.stats := registry, stats;
      players, profiles := map[], map[];
    }

    ghost predicate Valid()
      reads this, stats
    {
      stats.Valid()
    }

    ghost function State(): World
      requires Valid()
      reads this, registry, stats
    {
      World(registry.Database(), players, profiles, Stats.Points(stats.rows))
    }

    /** Recompute and store the figures of a profile's year on one server. */
    method UpdateAnnualServerStats(t: PlayerYear)
      requires Valid()
      modifies stats
      ensures Valid()
      ensures State() == old(State()).(table := old(State()).table + Refresh(old(State()), t))
      ensures Stats.OnlyPointsChanged(old(stats.rows), stats.rows)
    {
      if t.profile !in profiles || !Actual(profiles[t.profile], t.year) {
        assert Refresh(State(), t) == map[];
        return;
      }
      var figures := map c | c in SERVER_CATEGORIES ::
        Standing(registry.games, players, {t.server}, t.profile, t.year, c);
      assert figures == Figures(State(), t);
      stats.SaveStats(figures, t.profile, t.year, Stats.Group(t.server));
    }

    /** The yearly update of a profile's statistics, as far as they are kept per server. */
    method UpdateAnnualStatsForProfile(profile: ProfileId, year: int)
      requires Valid()
      modifies stats
      ensures Valid()
      ensures State() == ProfileUpdated(old(State()), profile, year)
    {
      UpdateEach(PlayedOn(World(registry.Database(), players, profiles, map[]), profile, year));
    }

    /** Record a game on the profiles that played in it. */
    method UpdateWithGame(g: GameId)
      requires g in registry.games
      modifies this`profiles
      ensures profiles == GameSeen(old(profiles), players, g, registry.games[g].at)
    {
      ghost var before := profiles;
      var at := registry.games[g].at;
      profiles := map p | p in profiles ::
        if PlayedIn(players, p, g) && profiles[p].firstGame.None?
        then profiles[p].(firstGame := Some(g), firstSeen := Some(at)) else profiles[p];
      profiles := map p | p in profiles ::
        if PlayedIn(players, p, g) && profiles[p].lastGame != Some(g)
        then profiles[p].(lastGame := Some(g), lastSeen := Some(at)) else profiles[p];
      FiniteSets.MapsEqual(profiles, GameSeen(before, players, g, at));
    }

    /** The periodic update of a profile's statistics. */
    method UpdateStatsForProfile(profile: ProfileId)
      requires Valid()
      modifies stats
      ensures Valid()
      ensures State() == StatsUpdated(old(State()), profile)
    {
      if profile in profiles && profiles[profile].lastSeen.Some? {
        UpdateAnnualStatsForProfile(profile, profiles[profile].lastSeen.value.year);
      }
    }

    /** Some profile years have been refreshed since the world was w and the rows were `before`. */
    ghost predicate Progress(w: World, done: set<PlayerYear>, before: Stats.Rows)
      reads this, registry, stats
    {
      && Valid() && State() == w.(table := w.table + RefreshAll(w, done))
      && Stats.OnlyPointsChanged(before, stats.rows)
    }

    /** Refresh one profile year after those done. */
    method UpdateOneMore(t: PlayerYear, ghost w: World, ghost done: set<PlayerYear>, ghost before: Stats.Rows)
      requires Progress(w, done, before)
      modifies stats
      ensures Progress(w, done + {t}, before)
    {
      ghost var was := stats.rows;
      RefreshedOneMore(w, State(), done, t);
      UpdateAnnualServerStats(t);
      Stats.OnlyPointsChangedTwice(before, was, stats.rows);
    }

    /** Recompute and store the figures of several profile years, in any order. */
    method UpdateEach(years: set<PlayerYear>)
      requires Valid()
      modifies stats
      ensures Valid()
      ensures State() == old(State()).(table := old(State()).table + RefreshAll(old(State()), years))
      ensures Stats.OnlyPointsChanged(old(stats.rows), stats.rows)
    {
      ghost var w := State();
      var todo := years;
      ghost var done: set<PlayerYear> := {};
      RefreshedNone(w);
      while todo != {}
        invariant forall t :: t in years <==> t in todo || t in done
        invariant Progress(w, done, old(stats.rows))
        decreases |todo|
      {
        var t := FiniteSets.Pick(todo);
        UpdateOneMore(t, w, done, old(stats.rows));
        todo, done := todo - {t}, done + {t};
      }
      assert done == years;
    }

    /** The main servers' profile years for which some pending server has statistics. */
    method CollectAffected(pending: set<ServerId>) returns (affected: set<PlayerYear>)
      requires Valid() && pending == Pending(registry.Database())
      ensures affected == Affected(State())
    {
      affected := set id | id in stats.rows && OnServers(pending, Stats.KeyOf(stats.rows[id])) ::
        PlayerYear(registry.servers[stats.rows[id].group.id].mergedInto.value,
                   stats.rows[id].profile, stats.rows[id].year);
      AffectedByRows(stats.rows, State());
    }

    /** Recalculate the positions of the affected servers in each affected year. */
    method RankAffected(affected: set<PlayerYear>)
      requires Valid()
      modifies stats
      ensures Valid()
      ensures State() == old(State())
      ensures stats.rows == Reranked(old(stats.rows), affected, YearsOf(affected))
    {
      var years := YearsOf(affected);
      ghost var done: set<int> := {};
      RerankedNone(stats.rows, affected);
      while years != {}
        invariant Valid()
        invariant State() == old(State())
        invariant done !! years && YearsOf(affected) == done + years
        invariant stats.rows == Reranked(old(stats.rows), affected, done)
        decreases |years|
      {
        var year := FiniteSets.Min(years);
        RerankedOneMore(old(stats.rows), affected, done, year);
        RankYear(affected, year);
        years, done := years - {year}, done + {year};
      }
      assert done == YearsOf(affected);
    }

    method RankYear(affected: set<PlayerYear>, year: int)
      requires Valid()
      modifies stats
      ensures Valid()
      ensures State() == old(State())
      ensures stats.rows
           == Leaderboards.RankAll(old(stats.rows), Leaderboards.ServerPasses(year, Some(GroupsOf(affected, year))))
    {
      PointsOfRanked(stats.rows, Leaderboards.ServerPasses(year, Some(GroupsOf(affected, year))));
      Leaderboards.UpdatePerServerPositionsForYear(stats, year, Some(GroupsOf(affected, year)));
    }

    /** Mark the merged servers as having merged stats and delete their statistics. */
    method DeleteMergedStats(pending: set<ServerId>, now: int)
      requires Valid()
      modifies registry`servers, stats`rows
      ensures Valid()
      ensures State() == old(State()).(db := Stamped(old(State()).db, pending, now),
                                       table := Without(old(State()).table, pending))
      ensures stats.rows == Kept(old(stats.rows), pending)
    {
      registry.servers := map s | s in registry.servers ::
        if s in pending then registry.servers[s].(mergedStatsAt := Some(now)) else registry.servers[s];
      DeletedRows(stats.rows, pending);
      stats.rows := Kept(stats.rows, pending);
    }

    /** Move the statistics of merged servers to the servers they were merged into. */
    method MergeUnmergedStats(now: int)
      requires Valid()
      modifies registry`servers, stats
      ensures Valid()
      ensures State() == StatsMerged(old(State()), now)
      ensures if Pending(old(registry.Database())) == {} then stats.rows == old(stats.rows)
              else RowsMerged(old(State()), old(stats.rows), stats.rows)
    {
      var pending := Pending(registry.Database());
      if pending == {} { return; }
      var affected := CollectAffected(pending);
      UpdateEach(affected);
      ghost var refreshed := stats.rows;
      RankAffected(affected);
      DeleteMergedStats(pending, now);
      assert RefreshedRows(old(State()), old(stats.rows), refreshed);
    }
  }

  /** The world after one more profile year, from the world after those done. */
  lemma RefreshedOneMore(w: World, now: World, done: set<PlayerYear>, t: PlayerYear)
    requires now == w.(table := w.table + RefreshAll(w, done))
    ensures now.(table := now.table + Refresh(now, t)) == w.(table := w.table + RefreshAll(w, done + {t}))
  {
    RefreshOneMore(w, done, t);
    SameRefresh(w, now, t);
    KeyedTables.AddAfter(w.table, RefreshAll(w, done), Refresh(w, t));
  }

  lemma SameRefresh(w: World, w': World, t: PlayerYear)
    requires w' == w.(table := w'.table)
    ensures Refresh(w', t) == Refresh(w, t)
  {
  }

  /** The rows on pending servers name exactly the affected profile years. */
  lemma AffectedByRows(rows: Stats.Rows, w: World)
    requires Stats.UniqueKeys(rows) && w.table == Stats.Points(rows)
    ensures Affected(w) == set id | id in rows && OnServers(Pending(w.db), Stats.KeyOf(rows[id])) ::
              PlayerYear(w.db.servers[rows[id].group.id].mergedInto.value, rows[id].profile, rows[id].year)
  {
    var pending := Pending(w.db);
    var named := set id | id in rows && OnServers(pending, Stats.KeyOf(rows[id])) ::
      PlayerYear(w.db.servers[rows[id].group.id].mergedInto.value, rows[id].profile, rows[id].year);
    forall id | id in rows && OnServers(pending, Stats.KeyOf(rows[id]))
      ensures PlayerYear(w.db.servers[rows[id].group.id].mergedInto.value, rows[id].profile, rows[id].year)
           in Affected(w)
    {
      KeyedTables.IndexAt(rows, Stats.KeyOf, Stats.PointsOf, id);
      assert Stats.KeyOf(rows[id]) in w.table;
    }
    forall k | k in w.table && OnServers(pending, k)
      ensures PlayerYear(w.db.servers[k.group.id].mergedInto.value, k.profile, k.year) in named
    {
      var id := KeyedTables.IndexFrom(rows, Stats.KeyOf, Stats.PointsOf, k);
      assert Stats.KeyOf(rows[id]) == k;
    }
    assert forall t :: t in named <==> t in Affected(w);
  }
}
