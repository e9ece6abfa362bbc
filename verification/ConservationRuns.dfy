/**
 Conservation over whole runs: when a merged server's statistics survive, and that they add up by the servers the
 games were first saved under.  What decides it is the order in which games are delivered to the profiles.
 */
module ConservationRuns {
  import opened Wrappers
  import opened Categories
  import opened GameCounters
  import opened ServerMerging
  import opened PlayerTotals
  import opened ProfileSpans
  import opened MergeRuns
  import opened MergedStats
  import opened MergedStatsRuns
  import Stats
  import FiniteSets

  // ---------------------------------------------------------------- what the spans say

  /** The last date is that of a saved game, and a profile is seen last just when it is seen first. */
  ghost predicate SpanKnown(a: Archive, p: Profile) {
    && (p.firstSeen.Some? <==> p.lastSeen.Some?) && (p.firstGame.Some? <==> p.firstSeen.Some?)
    && (p.lastGame.Some? <==> p.lastSeen.Some?)
    && (p.lastGame.Some? ==> p.lastGame.value in a.tracked.db.games
                             && p.lastSeen.value == a.tracked.db.games[p.lastGame.value].at)
  }

  /** Statistics belong to profiles that have been seen. */
  ghost predicate RowSeen(a: Archive, k: Stats.Key) {
    k.profile in a.profiles && a.profiles[k.profile].lastSeen.Some?
  }

  ghost predicate Spanned(a: Archive) {
    && (forall p :: p in a.profiles ==> SpanKnown(a, a.profiles[p]))
    && (forall k :: k in a.table ==> RowSeen(a, k))
  }

  /** Every year with statistics is one that would be recomputed. */
  ghost predicate RowsActual(a: Archive) {
    forall k :: k in a.table ==> k.profile in a.profiles && Actual(a.profiles[k.profile], k.year)
  }

  // ---------------------------------------------------------------- each step

  /** Games never change their date, and are never removed. */
  lemma DatesStay(st: Tracked, e: Event, g: GameId)
    requires g in st.db.games
    ensures g in Apply(st, e).db.games && Apply(st, e).db.games[g].at == st.db.games[g].at
  {
  }

  lemma TrackKeepsSpans(a: Archive, e: Event)
    requires Spanned(a)
    ensures Spanned(Take(a, Track(e))) && (RowsActual(Take(a, Track(e))) <==> RowsActual(a))
  {
    var after := Take(a, Track(e));
    forall p | p in after.profiles ensures SpanKnown(after, after.profiles[p]) {
      assert SpanKnown(a, a.profiles[p]);
      if a.profiles[p].lastGame.Some? { DatesStay(a.tracked, e, a.profiles[p].lastGame.value); }
    }
    forall k | k in after.table ensures RowSeen(after, k) {
      assert RowSeen(a, k);
    }
  }

  lemma SavePlayerKeepsSpans(a: Archive, p: PlayerId, row: Player)
    requires Spanned(a)
    ensures Spanned(Take(a, SavePlayer(p, row))) && (RowsActual(Take(a, SavePlayer(p, row))) <==> RowsActual(a))
  {
    var after := Take(a, SavePlayer(p, row));
    forall q | q in after.profiles ensures SpanKnown(after, after.profiles[q]) {
      if q in a.profiles { assert SpanKnown(a, a.profiles[q]); }
    }
    forall k | k in after.table ensures RowSeen(after, k) && after.profiles[k.profile] == a.profiles[k.profile] {
      assert RowSeen(a, k);
    }
  }

  /** What refreshing stores belongs to actual years. */
  lemma RefreshedActual(w: World, ts: set<PlayerYear>, k: Stats.Key)
    requires k in RefreshAll(w, ts)
    ensures k.profile in w.profiles && Actual(w.profiles[k.profile], k.year) && YearOf(k).Some? && YearOf(k).value in ts
  {
    RefreshAllAt(w, ts, k);
  }

  lemma UpdateKeepsSpans(a: Archive, p: ProfileId)
    requires Spanned(a)
    ensures Spanned(Take(a, UpdateStats(p))) && (RowsActual(a) ==> RowsActual(Take(a, UpdateStats(p))))
  {
    var after, w := Take(a, UpdateStats(p)), WorldOf(a);
    if p in a.profiles && a.profiles[p].lastSeen.Some? {
      var ts := PlayedOn(w, p, a.profiles[p].lastSeen.value.year);
      forall k | k in after.table
        ensures RowSeen(after, k) && (k !in a.table ==> Actual(a.profiles[k.profile], k.year))
      {
        if k in RefreshAll(w, ts) {
          RefreshedActual(w, ts, k);
        } else {
          assert RowSeen(a, k);
        }
      }
    }
    forall q | q in after.profiles ensures SpanKnown(after, after.profiles[q]) {
      assert SpanKnown(a, a.profiles[q]);
    }
  }

  lemma MergeStatsKeepsSpans(a: Archive, now: int)
    requires Spanned(a)
    ensures Spanned(Take(a, MergeStats(now))) && (RowsActual(a) ==> RowsActual(Take(a, MergeStats(now))))
  {
    var after, w := Take(a, MergeStats(now)), WorldOf(a);
    forall k | k in after.table
      ensures RowSeen(after, k) && (k !in a.table ==> Actual(a.profiles[k.profile], k.year))
    {
      if Pending(w.db) != {} && k in RefreshAll(w, Affected(w)) {
        RefreshedActual(w, Affected(w), k);
        AffectedSeen(a, YearOf(k).value);
      } else {
        assert RowSeen(a, k);
      }
    }
    forall q | q in after.profiles ensures SpanKnown(after, after.profiles[q]) {
      assert SpanKnown(a, a.profiles[q]);
      assert after.tracked.db.games == a.tracked.db.games;
    }
  }

  lemma AffectedSeen(a: Archive, t: PlayerYear)
    requires Spanned(a) && t in Affected(WorldOf(a))
    ensures t.profile in a.profiles && a.profiles[t.profile].lastSeen.Some?
  {
    var k :| k in a.table && OnServers(Pending(a.tracked.db), k)
             && t == PlayerYear(a.tracked.db.servers[k.group.id].mergedInto.value, k.profile, k.year);
    assert RowSeen(a, k);
  }

  lemma SeeGameKeepsSpans(a: Archive, g: GameId)
    requires Spanned(a)
    ensures Spanned(Take(a, SeeGame(g)))
  {
    var after := Take(a, SeeGame(g));
    forall p | p in after.profiles ensures SpanKnown(after, after.profiles[p]) {
      assert SpanKnown(a, a.profiles[p]);
    }
    forall k | k in after.table ensures RowSeen(after, k) {
      assert RowSeen(a, k);
    }
  }

  /** No profile that played in the game has statistics of a later year. */
  ghost predicate Spares(a: Archive, s: Step) {
    s.SeeGame? && s.game in a.tracked.db.games ==>
      forall k :: k in a.table && PlayedIn(a.players, k.profile, s.game) ==>
        k.year <= a.tracked.db.games[s.game].at.year
  }

  /** Delivering a game keeps all years with statistics actual if and only if it spares them. */
  lemma SeeGameKeepsActualIff(a: Archive, g: GameId)
    requires Spanned(a) && RowsActual(a)
    ensures RowsActual(Take(a, SeeGame(g))) <==> Spares(a, SeeGame(g))
  {
    var after := Take(a, SeeGame(g));
    if g in a.tracked.db.games {
      forall k | k in a.table
        ensures k.profile in after.profiles
        ensures Actual(after.profiles[k.profile], k.year)
           <==> (PlayedIn(a.players, k.profile, g) ==> k.year <= a.tracked.db.games[g].at.year)
      {
        assert RowSeen(a, k) && SpanKnown(a, a.profiles[k.profile]);
        assert Actual(a.profiles[k.profile], k.year);
      }
    }
  }

  /** The profiles that played were last seen no later than in the game's year. */
  ghost predicate InYearOrder(a: Archive, s: Step) {
    s.SeeGame? && s.game in a.tracked.db.games ==>
      forall p :: p in a.profiles && PlayedIn(a.players, p, s.game) && a.profiles[p].lastSeen.Some? ==>
        a.profiles[p].lastSeen.value.year <= a.tracked.db.games[s.game].at.year
  }

  /** Delivering games in order of years spares all statistics. */
  lemma YearOrderSpares(a: Archive, s: Step)
    requires Spanned(a) && RowsActual(a) && InYearOrder(a, s)
    ensures Spares(a, s)
  {
    if s.SeeGame? && s.game in a.tracked.db.games {
      forall k | k in a.table && PlayedIn(a.players, k.profile, s.game)
        ensures k.year <= a.tracked.db.games[s.game].at.year
      {
        assert RowSeen(a, k) && Actual(a.profiles[k.profile], k.year);
      }
    }
  }

  // ---------------------------------------------------------------- runs

  lemma StepKeepsSpans(a: Archive, s: Step)
    requires Spanned(a)
    ensures Spanned(Take(a, s))
    ensures RowsActual(a) ==> (RowsActual(Take(a, s)) <==> Spares(a, s))
  {
    match s
    case Track(e) => TrackKeepsSpans(a, e);
    case SavePlayer(p, row) => SavePlayerKeepsSpans(a, p, row);
    case SeeGame(g) =>
      SeeGameKeepsSpans(a, g);
      if RowsActual(a) { SeeGameKeepsActualIff(a, g); }
    case UpdateStats(p) => UpdateKeepsSpans(a, p);
    case MergeStats(now) => MergeStatsKeepsSpans(a, now);
  }

  lemma {:induction false} RunKeepsSpans(steps: seq<Step>)
    ensures Spanned(TakeAll(NOTHING, steps))
  {
    if steps != [] {
      RunKeepsSpans(steps[..|steps| - 1]);
      StepKeepsSpans(TakeAll(NOTHING, steps[..|steps| - 1]), steps[|steps| - 1]);
    }
  }

  ghost predicate AllSpare(steps: seq<Step>) {
    steps != [] ==> AllSpare(steps[..|steps| - 1]) && Spares(TakeAll(NOTHING, steps[..|steps| - 1]), steps[|steps| - 1])
  }

  ghost predicate ActualThroughout(steps: seq<Step>) {
    RowsActual(TakeAll(NOTHING, steps)) && (steps != [] ==> ActualThroughout(steps[..|steps| - 1]))
  }

  /** Over a run every year with statistics stays actual if and only if each delivery spares the statistics so far. */
  lemma {:induction false} ActualThroughoutIff(steps: seq<Step>)
    ensures ActualThroughout(steps) <==> AllSpare(steps)
  {
    if steps != [] {
      var init, s := steps[..|steps| - 1], steps[|steps| - 1];
      ActualThroughoutIff(init);
      RunKeepsSpans(init);
      StepKeepsSpans(TakeAll(NOTHING, init), s);
      ActualNow(init);
    }
  }

  lemma ActualNow(steps: seq<Step>)
    ensures ActualThroughout(steps) ==> RowsActual(TakeAll(NOTHING, steps))
  {
  }

  ghost predicate AllInYearOrder(steps: seq<Step>) {
    steps != [] ==>
      AllInYearOrder(steps[..|steps| - 1]) && InYearOrder(TakeAll(NOTHING, steps[..|steps| - 1]), steps[|steps| - 1])
  }

  /** Deliveries in order of years never make statistics of a run stale. */
  lemma {:induction false} YearOrderKeepsActual(steps: seq<Step>)
    requires AllInYearOrder(steps)
    ensures AllSpare(steps)
  {
    if steps != [] {
      var init := steps[..|steps| - 1];
      YearOrderKeepsActual(init);
      ActualThroughoutIff(init);
      ActualNow(init);
      RunKeepsSpans(init);
      YearOrderSpares(TakeAll(NOTHING, init), steps[|steps| - 1]);
    }
  }

  // ---------------------------------------------------------------- totals by the servers games were saved under

  /** The games on the servers they were first saved under. */
  function Origins(st: Tracked): map<GameId, Game> {
    map g | g in st.db.games && g in st.origin :: st.db.games[g].(server := st.origin[g])
  }

  /** The servers that a server now stands for. */
  function StandsFor(db: Db, main: ServerId): set<ServerId> {
    set s | s in db.servers && Root(db, s) == main
  }

  lemma CellByOrigin(st: Tracked, p: Player, main: ServerId, profile: ProfileId, year: int, c: Category)
    requires GamesOnRoots(st)
    ensures Cell(st.db.games, p, {main}, profile, year, c)
         == Cell(Origins(st), p, StandsFor(st.db, main), profile, year, c)
  {
    if p.game in st.db.games {
      OriginStands(st, p.game, main);
    }
  }

  /** A game is the main server's just when the server it was saved under is one that the main server stands for. */
  lemma OriginStands(st: Tracked, g: GameId, main: ServerId)
    requires GamesOnRoots(st) && g in st.db.games
    ensures g in Origins(st) && Origins(st)[g] == st.db.games[g].(server := Origins(st)[g].server)
    ensures st.db.games[g].server == main <==> Origins(st)[g].server in StandsFor(st.db, main)
  {
    assert st.origin[g] in st.db.servers && st.db.games[g].server == Root(st.db, st.origin[g]);
  }

  /** A server's figure is the figure, over all servers it stands for, of the games saved under them. */
  lemma PlainByOrigin(st: Tracked, players: map<PlayerId, Player>, main: ServerId, profile: ProfileId, year: int,
                      c: Category)
    requires Good(st)
    ensures Plain(st.db.games, players, {main}, profile, year, c)
         == Plain(Origins(st), players, StandsFor(st.db, main), profile, year, c)
  {
    var f := CellOf(st.db.games, players, {main}, profile, year, c);
    var g := CellOf(Origins(st), players, StandsFor(st.db, main), profile, year, c);
    forall p | p in players ensures f(p) == g(p) {
      CellByOrigin(st, players[p], main, profile, year, c);
    }
    FiniteSets.CollectSame(players.Keys, f, g);
  }

  lemma StandingByOrigin(st: Tracked, players: map<PlayerId, Player>, main: ServerId, servers: seq<ServerId>,
                         profile: ProfileId, year: int, c: Category)
    requires Good(st) && FiniteSets.Distinct(servers) && FiniteSets.SetOf(servers) == StandsFor(st.db, main)
    requires IsSummed(c) || IsCounted(c) || IsTop(c)
    ensures OrZero(Standing(st.db.games, players, {main}, profile, year, c))
         == Total(Origins(st), players, servers, profile, year, c)
  {
    AggregateStanding(st.db.games, players, {main}, profile, year, c);
    PlainByOrigin(st, players, main, profile, year, c);
    StandingOfMany(Origins(st), players, servers, profile, year, c);
  }

  /** The server that the owner of a row now stands under. */
  function MainOf(a: Archive, k: Stats.Key): Option<ServerId> {
    if k.group.Group? && k.group.id in a.tracked.db.servers then a.tracked.db.servers[k.group.id].mergedInto else None
  }

  /** The statistics task is to move this row's profile year to this main server, which stands for these servers. */
  ghost predicate Moves(a: Archive, from: Stats.Key, main: ServerId, servers: seq<ServerId>) {
    && from in a.table && OnServers(Pending(a.tracked.db), from) && MainOf(a, from) == Some(main)
    && FiniteSets.Distinct(servers) && FiniteSets.SetOf(servers) == StandsFor(a.tracked.db, main)
  }

  lemma MovedIsAffected(a: Archive, from: Stats.Key, main: ServerId, servers: seq<ServerId>)
    requires Clean(a) && Moves(a, from, main, servers)
    ensures PlayerYear(main, from.profile, from.year) in Affected(WorldOf(a)) && main !in Pending(a.tracked.db)
  {
    AffectedBy(WorldOf(a), from);
    AffectedUnmerged(a, PlayerYear(main, from.profile, from.year));
  }

  /**
   In the end the merged server's row is gone, and the main server's is the total, over all servers it stands for,
   of the games first saved under them; where that is not positive, the main server's old row stays.
   */
  ghost predicate Conserved(a: Archive, after: map<Stats.Key, real>, from: Stats.Key, main: ServerId,
                            servers: seq<ServerId>, c: Category)
  {
    && from !in after
    && HoldsTotal(a.table, after, KeyFor(PlayerYear(main, from.profile, from.year), c),
                  Total(Origins(a.tracked), a.players, servers, from.profile, from.year, c))
  }

  lemma MovedConserves(a: Archive, now: int, from: Stats.Key, main: ServerId, servers: seq<ServerId>, c: Category)
    requires Clean(a) && RowsActual(a) && Moves(a, from, main, servers)
    requires IsSummed(c) || IsCounted(c) || IsTop(c)
    ensures Conserved(a, StatsMerged(WorldOf(a), now).table, from, main, servers, c)
  {
    MovedHolds(a, now, from, main, servers, c);
    PendingRowsGone(WorldOf(a), now, from);
    StandingByOrigin(a.tracked, a.players, main, servers, from.profile, from.year, c);
    SameTotal(a.table, StatsMerged(WorldOf(a), now).table, KeyFor(PlayerYear(main, from.profile, from.year), c),
              OrZero(Standing(a.tracked.db.games, a.players, {main}, from.profile, from.year, c)),
              Total(Origins(a.tracked), a.players, servers, from.profile, from.year, c));
  }

  lemma MovedHolds(a: Archive, now: int, from: Stats.Key, main: ServerId, servers: seq<ServerId>, c: Category)
    requires Clean(a) && RowsActual(a) && Moves(a, from, main, servers)
    requires IsSummed(c) || IsCounted(c) || IsTop(c)
    ensures HoldsTotal(a.table, StatsMerged(WorldOf(a), now).table,
                       KeyFor(PlayerYear(main, from.profile, from.year), c),
                       OrZero(Standing(a.tracked.db.games, a.players, {main}, from.profile, from.year, c)))
  {
    MovedIsAffected(a, from, main, servers);
    assert Actual(a.profiles[from.profile], from.year);
    HeldAfterStats(WorldOf(a), now, PlayerYear(main, from.profile, from.year), c);
  }

  /**
   Conservation over every run whose deliveries spare the statistics: when the statistics task runs, each profile
   year with statistics on a pending server is conserved on its main server.
   */
  lemma RunConserves(steps: seq<Step>, now: int, from: Stats.Key, main: ServerId, servers: seq<ServerId>, c: Category)
    requires AllAllowed(NOTHING, steps) && AllSpare(steps) && Moves(TakeAll(NOTHING, steps), from, main, servers)
    requires IsSummed(c) || IsCounted(c) || IsTop(c)
    ensures var a := TakeAll(NOTHING, steps); Conserved(a, Take(a, MergeStats(now)).table, from, main, servers, c)
  {
    var a := TakeAll(NOTHING, steps);
    RunStaysConservable(steps);
    TakenStats(a, now);
    MovedConserves(a, now, from, main, servers, c);
  }

  lemma RunStaysConservable(steps: seq<Step>)
    requires AllAllowed(NOTHING, steps) && AllSpare(steps)
    ensures Clean(TakeAll(NOTHING, steps)) && RowsActual(TakeAll(NOTHING, steps))
  {
    RunKeepsClean(steps);
    ActualThroughoutIff(steps);
    ActualNow(steps);
  }

  lemma TakenStats(a: Archive, now: int)
    ensures Take(a, MergeStats(now)).table == StatsMerged(WorldOf(a), now).table
  {
  }

  // ---------------------------------------------------------------- exactly when figures survive

  /**
   A positive figure of an affected profile year is what the main server's row holds afterwards if and only if the
   year is actual, or the row held that very figure before.
   */
  lemma FigureHeldIff(w: World, later: int, t: PlayerYear, c: Category)
    requires t in Affected(w) && t.server !in Pending(w.db) && t.profile in w.profiles && c in SERVER_CATEGORIES
    requires OrZero(Standing(w.db.games, w.players, {t.server}, t.profile, t.year, c)) > 0.0
    ensures var figure := Standing(w.db.games, w.players, {t.server}, t.profile, t.year, c).value;
            var after, k := StatsMerged(w, later).table, KeyFor(t, c);
            (k in after && after[k] == figure
             <==> Actual(w.profiles[t.profile], t.year) || (k in w.table && w.table[k] == figure))
  {
    var k := KeyFor(t, c);
    if Actual(w.profiles[t.profile], t.year) {
      RowAfterStats(w, later, t, c);
    } else {
      RefreshAllAt(w, Affected(w), k);
      assert !OnServers(Pending(w.db), k);
    }
  }
}
