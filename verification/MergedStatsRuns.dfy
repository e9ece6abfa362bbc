/**
 Whole runs in which servers are merged, games saved, profiles updated and statistics merged, in any order.
 A merged server owns statistics only while it is pending; merging statistics leaves rows on unmerged servers
 only, is then idempotent, and conserves the players' totals.
 */
module MergedStatsRuns {
  import opened Wrappers
  import opened Categories
  import opened GameCounters
  import opened ServerMerging
  import opened PlayerTotals
  import opened PlayerFigures
  import opened ProfileSpans
  import opened MergeRuns
  import opened MergedStats
  import Stats

  datatype Archive = Archive(
    tracked: Tracked,
    players: map<PlayerId, Player>,
    profiles: map<ProfileId, Profile>,
    table: map<Stats.Key, real>,
    clock: int)

  const NOTHING := Archive(MergeRuns.EMPTY, map[], map[], map[], 0)

  datatype Step =
    | Track(event: Event)
    | SavePlayer(player: PlayerId, row: Player)
    | SeeGame(game: GameId)
    | UpdateStats(profile: ProfileId)
    | MergeStats(now: int)

  ghost function WorldOf(a: Archive): World {
    World(a.tracked.db, a.players, a.profiles, a.table)
  }

  /** One atomic task. */
  ghost function Take(a: Archive, s: Step): Archive {
    match s
    case Track(e) => a.(tracked := Apply(a.tracked, e), clock := if e.Merge? then e.now else a.clock)
    case SavePlayer(p, row) =>
      if p in a.players then a
      else a.(players := a.players[p := row],
              profiles := if row.profile in a.profiles then a.profiles else a.profiles[row.profile := UNSEEN])
    case SeeGame(g) =>
      if g !in a.tracked.db.games then a
      else a.(profiles := GameSeen(a.profiles, a.players, g, a.tracked.db.games[g].at))
    case UpdateStats(p) => a.(table := StatsUpdated(WorldOf(a), p).table)
    case MergeStats(now) =>
      var w := StatsMerged(WorldOf(a), now);
      a.(tracked := a.tracked.(db := w.db), table := w.table, clock := now)
  }

  /** The clock does not run backwards, and games are saved to unmerged servers. */
  ghost predicate Allowed(a: Archive, s: Step) {
    && (s.Track? ==> SavedToUnmerged(a.tracked, s.event))
    && (s.Track? && s.event.Merge? ==> a.clock <= s.event.now)
    && (s.MergeStats? ==> a.clock <= s.now)
  }

  ghost function TakeAll(a: Archive, steps: seq<Step>): Archive {
    if steps == [] then a else Take(TakeAll(a, steps[..|steps| - 1]), steps[|steps| - 1])
  }

  ghost predicate AllAllowed(a: Archive, steps: seq<Step>) {
    steps != [] ==>
      AllAllowed(a, steps[..|steps| - 1]) && Allowed(TakeAll(a, steps[..|steps| - 1]), steps[|steps| - 1])
  }

  /** No merge lies in the future. */
  ghost predicate Timely(a: Archive) {
    forall s :: s in a.tracked.db.servers && a.tracked.db.servers[s].mergedIntoAt.Some? ==>
      a.tracked.db.servers[s].mergedIntoAt.value <= a.clock
  }

  /** A row of the table belongs to a known server which, if merged, is pending. */
  ghost predicate RowInPlace(db: Db, k: Stats.Key) {
    && k.group.Group? && k.group.id in db.servers
    && (IsMerged(db, k.group.id) ==> k.group.id in Pending(db))
  }

  ghost predicate Clean(a: Archive) {
    && Good(a.tracked) && Timely(a)
    && forall k :: k in a.table ==> RowInPlace(a.tracked.db, k)
  }

  // ---------------------------------------------------------------- what each step keeps

  lemma MergeKeepsRowInPlace(db: Db, main: ServerId, merged: seq<ServerId>, now: int, k: Stats.Key)
    requires Forest(db) && RowInPlace(db, k) && MergeFailure(db, main, merged).None?
    ensures RowInPlace(MergedDb(db, main, merged, now), k)
  {
    var s := k.group.id;
    var after := MergedDb(db, main, merged, now);
    assert after.servers[s].mergedStatsAt == db.servers[s].mergedStatsAt;
    assert s !in merged ==> after.servers[s].mergedIntoAt == db.servers[s].mergedIntoAt;
    assert s !in merged ==> after.servers[s].mergedInto.Some? == db.servers[s].mergedInto.Some?;
  }

  lemma EventKeepsClean(a: Archive, e: Event)
    requires Clean(a) && Allowed(a, Track(e))
    ensures Clean(Take(a, Track(e)))
  {
    StepKeepsGood(a.tracked, e);
    EventKeepsTimely(a, e);
    var after := Take(a, Track(e));
    forall k | k in after.table ensures RowInPlace(after.tracked.db, k) {
      if e.Merge? && MergeFailure(a.tracked.db, e.main, e.merged).None? {
        MergeKeepsRowInPlace(a.tracked.db, e.main, e.merged, e.now, k);
      } else {
        OtherKeepsRowInPlace(a.tracked, e, k);
      }
    }
  }

  lemma EventKeepsTimely(a: Archive, e: Event)
    requires Timely(a) && Allowed(a, Track(e))
    ensures Timely(Take(a, Track(e)))
  {
  }

  lemma OtherKeepsRowInPlace(st: Tracked, e: Event, k: Stats.Key)
    requires RowInPlace(st.db, k) && (e.Merge? ==> MergeFailure(st.db, e.main, e.merged).Some?)
    ensures RowInPlace(Apply(st, e).db, k)
  {
    var s, after := k.group.id, Apply(st, e).db;
    assert after.servers[s] == st.db.servers[s].(counters := after.servers[s].counters);
  }

  /** A game that counts sits on an unmerged server. */
  lemma PlayedOnUnmerged(a: Archive, profile: ProfileId, year: int, t: PlayerYear)
    requires Good(a.tracked) && t in PlayedOn(WorldOf(a), profile, year)
    ensures t.server in a.tracked.db.servers && !IsMerged(a.tracked.db, t.server)
  {
  }

  lemma UpdateKeepsClean(a: Archive, profile: ProfileId, year: int)
    requires Clean(a)
    ensures forall k :: k in ProfileUpdated(WorldOf(a), profile, year).table ==> RowInPlace(a.tracked.db, k)
  {
    forall k | k in ProfileUpdated(WorldOf(a), profile, year).table ensures RowInPlace(a.tracked.db, k) {
      if k !in a.table {
        RefreshAllAt(WorldOf(a), PlayedOn(WorldOf(a), profile, year), k);
        PlayedOnUnmerged(a, profile, year, YearOf(k).value);
      }
    }
  }

  lemma AffectedUnmerged(a: Archive, t: PlayerYear)
    requires Clean(a) && t in Affected(WorldOf(a))
    ensures t.server in a.tracked.db.servers && !IsMerged(a.tracked.db, t.server)
  {
  }

  /** Stamping merged servers changes neither who is merged nor the roots. */
  lemma StampKeepsGood(st: Tracked, servers: set<ServerId>, now: int)
    requires Good(st) && forall s :: s in servers ==> IsMerged(st.db, s)
    ensures Good(st.(db := Stamped(st.db, servers, now)))
  {
    var after := st.(db := Stamped(st.db, servers, now));
    RootsUnchanged(st.db, after.db);
    forall s | s in after.db.servers ensures Connected(after.links, s, Root(after.db, s)) {
      assert Connected(st.links, s, Root(st.db, s));
    }
  }

  /** After statistics are merged, every row belongs to an unmerged server. */
  lemma RowsOnUnmerged(a: Archive, now: int, k: Stats.Key)
    requires Clean(a) && k in Take(a, MergeStats(now)).table
    ensures var db := Take(a, MergeStats(now)).tracked.db;
            k.group.Group? && k.group.id in db.servers && !IsMerged(db, k.group.id)
  {
    MergedRowUnmerged(a, now, k);
    StampKeepsMerged(a.tracked.db, Pending(a.tracked.db), now, k.group.id);
  }

  lemma MergedRowUnmerged(a: Archive, now: int, k: Stats.Key)
    requires Clean(a) && k in StatsMerged(WorldOf(a), now).table
    ensures k.group.Group? && k.group.id in a.tracked.db.servers && !IsMerged(a.tracked.db, k.group.id)
  {
    if k in RefreshAll(WorldOf(a), Affected(WorldOf(a))) {
      RefreshedUnmerged(a, k);
    } else {
      OldRowUnmerged(a, now, k);
    }
  }

  lemma StampKeepsMerged(db: Db, servers: set<ServerId>, now: int, s: ServerId)
    ensures s in Stamped(db, servers, now).servers <==> s in db.servers
    ensures IsMerged(Stamped(db, servers, now), s) == IsMerged(db, s)
  {
  }

  lemma RefreshedUnmerged(a: Archive, k: Stats.Key)
    requires Clean(a) && k in RefreshAll(WorldOf(a), Affected(WorldOf(a)))
    ensures k.group.Group? && k.group.id in a.tracked.db.servers && !IsMerged(a.tracked.db, k.group.id)
  {
    RefreshAllAt(WorldOf(a), Affected(WorldOf(a)), k);
    AffectedUnmerged(a, YearOf(k).value);
  }

  lemma OldRowUnmerged(a: Archive, now: int, k: Stats.Key)
    requires Clean(a) && k in StatsMerged(WorldOf(a), now).table && k !in RefreshAll(WorldOf(a), Affected(WorldOf(a)))
    ensures k.group.Group? && k.group.id in a.tracked.db.servers && !IsMerged(a.tracked.db, k.group.id)
  {
    assert k in a.table && !OnServers(Pending(a.tracked.db), k);
    assert RowInPlace(a.tracked.db, k);
  }

  lemma MergeStatsKeepsClean(a: Archive, now: int)
    requires Clean(a) && Allowed(a, MergeStats(now))
    ensures Clean(Take(a, MergeStats(now)))
  {
    var after := Take(a, MergeStats(now));
    StampKeepsGood(a.tracked, Pending(a.tracked.db), now);
    forall k | k in after.table ensures RowInPlace(after.tracked.db, k) {
      RowsOnUnmerged(a, now, k);
    }
  }

  /** Over any run, a merged server that is not pending owns no statistics. */
  lemma {:induction false} RunKeepsClean(steps: seq<Step>)
    requires AllAllowed(NOTHING, steps)
    ensures Clean(TakeAll(NOTHING, steps))
  {
    if steps != [] {
      var a, s := TakeAll(NOTHING, steps[..|steps| - 1]), steps[|steps| - 1];
      RunKeepsClean(steps[..|steps| - 1]);
      match s
      case Track(e) => EventKeepsClean(a, e);
      case UpdateStats(p) =>
        if p in a.profiles && a.profiles[p].lastSeen.Some? {
          UpdateKeepsClean(a, p, a.profiles[p].lastSeen.value.year);
        }
      case MergeStats(now) => MergeStatsKeepsClean(a, now);
      case _ =>
        forall k | k in Take(a, s).table ensures RowInPlace(a.tracked.db, k) {}
    }
  }

  /**
   After any run followed by the task that merges statistics, all statistics belong to unmerged servers, no
   server is pending, and running the task again changes nothing.
   */
  lemma StatsMergeSettles(steps: seq<Step>, now: int, later: int)
    requires AllAllowed(NOTHING, steps) && TakeAll(NOTHING, steps).clock <= now
    ensures var a := Take(TakeAll(NOTHING, steps), MergeStats(now));
            && (forall k :: k in a.table ==> k.group.Group? && !IsMerged(a.tracked.db, k.group.id))
            && Pending(a.tracked.db) == {}
            && StatsMerged(WorldOf(a), later) == WorldOf(a)
  {
    RunKeepsClean(steps);
    var before := TakeAll(NOTHING, steps);
    var a := Take(before, MergeStats(now));
    forall k | k in a.table ensures k.group.Group? && !IsMerged(a.tracked.db, k.group.id) {
      RowsOnUnmerged(before, now, k);
    }
    forall s | s in a.tracked.db.servers ensures s !in Pending(a.tracked.db) {
      assert before.tracked.db.servers[s].mergedIntoAt == a.tracked.db.servers[s].mergedIntoAt;
    }
    assert Pending(a.tracked.db) == {};
  }

  // ---------------------------------------------------------------- conservation, end to end

  /** A merge followed by the statistics task: the world in between. */
  ghost function AfterMerge(w: World, main: ServerId, merged: seq<ServerId>, now: int): World {
    w.(db := MergedDb(w.db, main, merged, now))
  }

  /** Servers merged for the first time are pending. */
  lemma NewlyMergedPending(db: Db, main: ServerId, merged: seq<ServerId>, now: int, s: ServerId)
    requires Forest(db) && MergeFailure(db, main, merged).None? && s in merged
    ensures s in db.servers && s in Pending(MergedDb(db, main, merged, now))
    ensures main !in Pending(MergedDb(db, main, merged, now))
    ensures MergedDb(db, main, merged, now).servers[s].mergedInto == Some(main)
  {
    assert s in [main] + merged;
    assert !IsMerged(db, s);
  }

  /** A figure is stored just when it is positive. */
  lemma RefreshIffPositive(w: World, t: PlayerYear, c: Category)
    requires t.profile in w.profiles && Actual(w.profiles[t.profile], t.year)
    ensures var figure := Standing(w.db.games, w.players, {t.server}, t.profile, t.year, c);
            && (KeyFor(t, c) in Refresh(w, t) <==> c in SERVER_CATEGORIES && figure.Some? && figure.value > 0.0)
            && (KeyFor(t, c) in Refresh(w, t) ==> Refresh(w, t)[KeyFor(t, c)] == figure.value)
  {
    var k := KeyFor(t, c);
    if k in Refresh(w, t) {
      RefreshKeys(w, t, k);
    } else if c in SERVER_CATEGORIES {
      assert c !in Stats.Positive(Figures(w, t));
    }
  }

  /** The categories kept per server: the eleven totals and the three ratios. */
  lemma ServerCategories(c: Category)
    ensures c in SERVER_CATEGORIES
       <==> c in {Score, Time, Games, Kills, Deaths, Arrests, TopKillStreak, TopArrestStreak}
            || c in {CoopScore, CoopGames, CoopTime} || c in {SpmRatio, SprRatio, KdRatio}
  {
  }

  /** The yearly update of a profile stores every positive figure of the profile on every server. */
  lemma UpdateStoresFigures(w: World, profile: ProfileId, year: int, s: ServerId, c: Category)
    requires profile in w.profiles && Actual(w.profiles[profile], year) && s in w.db.servers && c in SERVER_CATEGORIES
    requires OrZero(Standing(w.db.games, w.players, {s}, profile, year, c)) > 0.0
    ensures var table, k := ProfileUpdated(w, profile, year).table, KeyFor(PlayerYear(s, profile, year), c);
            k in table && Some(table[k]) == Standing(w.db.games, w.players, {s}, profile, year, c)
  {
    var t := PlayerYear(s, profile, year);
    FigureNeedsRow(w.db.games, w.players, {s}, profile, year, c);
    RowPlayedOn(w, t);
    RefreshIffPositive(w, t, c);
    RefreshAllAt(w, PlayedOn(w, profile, year), KeyFor(t, c));
  }

  lemma RowPlayedOn(w: World, t: PlayerYear)
    requires t.server in w.db.servers && HasRow(w.db.games, w.players, {t.server}, t.profile, t.year)
    ensures t in PlayedOn(w, t.profile, t.year)
  {
    var p :| p in w.players && Counts(w.db.games, w.players[p], {t.server}, t.profile, t.year);
    assert Counts(w.db.games, w.players[p], w.db.servers.Keys, t.profile, t.year);
  }

  /** What a main server's row holds in the end: the recomputed figure if positive, else what it held before. */
  lemma RowAfterStats(w: World, later: int, t: PlayerYear, c: Category)
    requires t in Affected(w) && t.server !in Pending(w.db)
    requires t.profile in w.profiles && Actual(w.profiles[t.profile], t.year)
    ensures var figure := Standing(w.db.games, w.players, {t.server}, t.profile, t.year, c);
            var after := StatsMerged(w, later).table;
            var k := KeyFor(t, c);
            if c in SERVER_CATEGORIES && figure.Some? && figure.value > 0.0
            then k in after && after[k] == figure.value
            else (k in after <==> k in w.table) && (k in after ==> after[k] == w.table[k])
  {
    var k := KeyFor(t, c);
    RefreshAllAt(w, Affected(w), k);
    RefreshIffPositive(w, t, c);
    assert !OnServers(Pending(w.db), k);
  }

  /** Rows of pending servers are gone in the end. */
  lemma PendingRowsGone(w: World, later: int, k: Stats.Key)
    requires OnServers(Pending(w.db), k)
    ensures k !in StatsMerged(w, later).table
  {
  }

  lemma AffectedBy(w: World, from: Stats.Key)
    requires from in w.table && OnServers(Pending(w.db), from)
    ensures PlayerYear(w.db.servers[from.group.id].mergedInto.value, from.profile, from.year) in Affected(w)
  {
  }

  /** What a category comes to over separate servers: the sum, or the maximum for top streaks. */
  function Total(games: map<GameId, Game>, players: map<PlayerId, Player>, servers: seq<ServerId>, profile: ProfileId,
                 year: int, c: Category): real
  {
    if IsTop(c) then OrZero(MaxOverEach(games, players, servers, profile, year, c))
    else SumOverEach(games, players, servers, profile, year, c)
  }

  /** The row that the main server has in the end. */
  ghost predicate HoldsTotal(before: map<Stats.Key, real>, after: map<Stats.Key, real>, k: Stats.Key, total: real) {
    if total > 0.0 then k in after && after[k] == total
    else (k in after <==> k in before) && (k in after ==> after[k] == before[k])
  }

  lemma SameTotal(before: map<Stats.Key, real>, after: map<Stats.Key, real>, k: Stats.Key, x: real, y: real)
    requires HoldsTotal(before, after, k, x) && x == y
    ensures HoldsTotal(before, after, k, y)
  {
  }

  lemma HeldAfterStats(w: World, later: int, t: PlayerYear, c: Category)
    requires t in Affected(w) && t.server !in Pending(w.db)
    requires t.profile in w.profiles && Actual(w.profiles[t.profile], t.year)
    requires IsSummed(c) || IsCounted(c) || IsTop(c)
    ensures HoldsTotal(w.table, StatsMerged(w, later).table, KeyFor(t, c),
                       OrZero(Standing(w.db.games, w.players, {t.server}, t.profile, t.year, c)))
  {
    RowAfterStats(w, later, t, c);
    assert c in SERVER_CATEGORIES;
  }

  /**
   Merging servers and then their statistics conserves totals: for every profile year with statistics on a
   merged server, the main server's row holds the total over the servers before the merge whenever that is
   positive, else what it held before; no merged server keeps a row.
   */
  lemma MergeThenStatsConserve(w: World, main: ServerId, merged: seq<ServerId>, now: int, later: int,
                               from: Stats.Key, c: Category)
    requires Forest(w.db) && MergeFailure(w.db, main, merged).None?
    requires from in w.table && from.group.Group? && from.group.id in merged
    requires from.profile in w.profiles && Actual(w.profiles[from.profile], from.year)
    requires IsSummed(c) || IsCounted(c) || IsTop(c)
    ensures var after := StatsMerged(AfterMerge(w, main, merged, now), later).table;
            && from !in after
            && HoldsTotal(w.table, after, KeyFor(PlayerYear(main, from.profile, from.year), c),
                          Total(w.db.games, w.players, [main] + merged, from.profile, from.year, c))
  {
    var mid := AfterMerge(w, main, merged, now);
    NewlyMergedPending(w.db, main, merged, now, from.group.id);
    AffectedBy(mid, from);
    HeldAfterStats(mid, later, PlayerYear(main, from.profile, from.year), c);
    PendingRowsGone(mid, later, from);
    TotalConserved(w, main, merged, now, from.profile, from.year, c);
    SameTotal(w.table, StatsMerged(mid, later).table, KeyFor(PlayerYear(main, from.profile, from.year), c),
              OrZero(Standing(mid.db.games, w.players, {main}, from.profile, from.year, c)),
              Total(w.db.games, w.players, [main] + merged, from.profile, from.year, c));
  }

  lemma TotalConserved(w: World, main: ServerId, merged: seq<ServerId>, now: int, profile: ProfileId, year: int,
                       c: Category)
    requires MergeFailure(w.db, main, merged).None? && (IsSummed(c) || IsCounted(c) || IsTop(c))
    ensures OrZero(Standing(AfterMerge(w, main, merged, now).db.games, w.players, {main}, profile, year, c))
         == Total(w.db.games, w.players, [main] + merged, profile, year, c)
  {
    MergeConservesTotals(w.db, w.players, main, merged, now, profile, year, c);
  }

  /**
   The guard that conservation needs: when the year lies outside the years the profile was seen in, the merged
   servers' statistics are deleted and the main server gains nothing.
   */
  lemma StatsLostOutsideSeenYears(w: World, later: int, from: Stats.Key, c: Category)
    requires from in w.table && OnServers(Pending(w.db), from)
    requires w.db.servers[from.group.id].mergedInto.value !in Pending(w.db)
    requires from.profile in w.profiles && !Actual(w.profiles[from.profile], from.year)
    ensures var after := StatsMerged(w, later).table;
            var k := KeyFor(PlayerYear(w.db.servers[from.group.id].mergedInto.value, from.profile, from.year), c);
            && from !in after
            && (k in after <==> k in w.table) && (k in after ==> after[k] == w.table[k])
  {
    var t := PlayerYear(w.db.servers[from.group.id].mergedInto.value, from.profile, from.year);
    RefreshAllAt(w, Affected(w), KeyFor(t, c));
    PendingRowsGone(w, later, from);
    assert !OnServers(Pending(w.db), KeyFor(t, c));
  }
}
