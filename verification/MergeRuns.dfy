/**
 Whole runs of server creations, saved games, counter updates and merges.  Two invariants hold after any run:
 the merge references are a depth-one forest that tells exactly which servers the merges have connected, with
 every game on the root of the server it was saved under; and the counters equal a full recount.
 */
module MergeRuns {
  import opened Wrappers
  import opened GameCounters
  import opened ServerMerging
  import FiniteSets

  /** The database with what the run did: where each game was saved, which merges happened, what is counted. */
  datatype Tracked = Tracked(
    db: Db,
    origin: map<GameId, ServerId>,
    links: set<(ServerId, ServerId)>,
    counted: set<GameId>)

  const EMPTY := Tracked(Db(map[], map[]), map[], {}, {})

  datatype Event =
    | CreateServer(server: ServerId)
    | SaveGame(id: GameId, game: Game)
    | CountGame(id: GameId)
    | Merge(main: ServerId, merged: seq<ServerId>, now: int)

  function CountedDb(db: Db, g: GameId): Db
    requires g in db.games
  {
    var Game(server, at, _, _, _, _) := db.games[g];
    if server !in db.servers then db
    else db.(servers := db.servers[server := db.servers[server].(
      counters := Advance(db.servers[server].counters, g, at))])
  }

  /** The games that belong to one of the servers. */
  function GamesOfAny(games: map<GameId, Game>, owners: set<ServerId>): set<GameId> {
    set g | g in games && games[g].server in owners
  }

  /** One atomic step; a step that raises leaves the state alone. */
  ghost function Apply(st: Tracked, e: Event): Tracked {
    match e
    case CreateServer(s) =>
      if s in st.db.servers then st
      else st.(db := st.db.(servers := st.db.servers[s := Server(true, None, None, None, NO_GAMES)]))
    case SaveGame(g, game) =>
      if g in st.db.games || game.server !in st.db.servers then st
      else st.(db := st.db.(games := st.db.games[g := game]), origin := st.origin[g := game.server])
    case CountGame(g) =>
      if g !in st.db.games then st
      else st.(db := CountedDb(st.db, g), counted := st.counted + {g})
    case Merge(main, merged, now) =>
      if MergeFailure(st.db, main, merged).Some? then st
      else Tracked(
             MergedDb(st.db, main, merged, now),
             st.origin,
             st.links + (set m | m in merged :: (m, main)),
             st.counted + GamesOfAny(st.db.games, {main} + FiniteSets.SetOf(merged)))
  }

  ghost function Run(st: Tracked, es: seq<Event>): Tracked {
    if es == [] then st else Apply(Run(st, es[..|es| - 1]), es[|es| - 1])
  }

  /** The server that a server now stands for. */
  function Root(db: Db, s: ServerId): ServerId {
    if IsMerged(db, s) then db.servers[s].mergedInto.value else s
  }

  // ---------------------------------------------------------------- the reference: connected by merges

  ghost predicate Linked(links: set<(ServerId, ServerId)>, a: ServerId, b: ServerId) {
    (a, b) in links || (b, a) in links
  }

  ghost predicate IsPath(links: set<(ServerId, ServerId)>, p: seq<ServerId>, a: ServerId, b: ServerId) {
    && p != [] && p[0] == a && p[|p| - 1] == b
    && forall i :: 0 <= i < |p| - 1 ==> Linked(links, p[i], p[i + 1])
  }

  /** Some chain of successful merges, read in either direction, leads from a to b. */
  ghost predicate Connected(links: set<(ServerId, ServerId)>, a: ServerId, b: ServerId) {
    exists p :: IsPath(links, p, a, b)
  }

  lemma ConnectedStep(links: set<(ServerId, ServerId)>, a: ServerId, b: ServerId, c: ServerId)
    requires Connected(links, a, b) && Linked(links, b, c)
    ensures Connected(links, a, c)
  {
    var p :| IsPath(links, p, a, b);
    var q := p + [c];
    forall i | 0 <= i < |q| - 1 ensures Linked(links, q[i], q[i + 1]) {
      if i == |p| - 1 { assert q[i] == b && q[i + 1] == c; }
    }
    assert IsPath(links, q, a, c);
  }

  lemma ConnectedMore(links: set<(ServerId, ServerId)>, more: set<(ServerId, ServerId)>, a: ServerId, b: ServerId)
    requires Connected(links, a, b) && links <= more
    ensures Connected(more, a, b)
  {
    var p :| IsPath(links, p, a, b);
    assert IsPath(more, p, a, b);
  }

  lemma ConnectedSelf(links: set<(ServerId, ServerId)>, a: ServerId)
    ensures Connected(links, a, a)
  {
    assert IsPath(links, [a], a, a);
  }

  lemma {:induction false} ConnectedBack(links: set<(ServerId, ServerId)>, p: seq<ServerId>, a: ServerId, b: ServerId,
                                         c: ServerId)
    requires IsPath(links, p, b, c) && Connected(links, a, c)
    ensures Connected(links, a, b)
    decreases |p|
  {
    if |p| > 1 {
      var q := p[..|p| - 1];
      var d := q[|q| - 1];
      assert Linked(links, p[|p| - 2], p[|p| - 1]);
      ConnectedStep(links, a, c, d);
      assert IsPath(links, q, b, d);
      ConnectedBack(links, q, a, b, d);
    }
  }

  // ---------------------------------------------------------------- the invariant

  ghost predicate Forest(db: Db) {
    forall s :: s in db.servers ==>
      var row := db.servers[s];
      if row.mergedInto.Some?
      then row.mergedInto.value in db.servers && !IsMerged(db, row.mergedInto.value) && !row.enabled
           && row.mergedIntoAt.Some?
      else row.mergedIntoAt.None? && row.mergedStatsAt.None?
  }

  /** Every game sits on the root of the server it was first saved under. */
  ghost predicate GamesOnRoots(st: Tracked) {
    && st.origin.Keys == st.db.games.Keys
    && forall g :: g in st.db.games ==>
      st.origin[g] in st.db.servers && st.db.games[g].server == Root(st.db, st.origin[g])
  }

  ghost predicate LinksAgree(st: Tracked) {
    && (forall a, b :: (a, b) in st.links ==>
      a in st.db.servers && b in st.db.servers && Root(st.db, a) == Root(st.db, b))
    && (forall s :: s in st.db.servers ==> Connected(st.links, s, Root(st.db, s)))
  }

  ghost predicate Good(st: Tracked) {
    Forest(st.db) && GamesOnRoots(st) && LinksAgree(st)
  }

  /** Games are saved to servers that are not merged at that moment. */
  ghost predicate SavedToUnmerged(st: Tracked, e: Event) {
    e.SaveGame? ==> !IsMerged(st.db, e.game.server)
  }

  /** On roots, a successful merge is exactly the union of the merged classes into the class of `main`. */
  lemma MergeIsUnion(db: Db, main: ServerId, merged: seq<ServerId>, now: int, s: ServerId)
    requires Forest(db) && s in db.servers && MergeFailure(db, main, merged).None?
    ensures Root(MergedDb(db, main, merged, now), s) == if Root(db, s) in merged then main else Root(db, s)
    ensures Forest(MergedDb(db, main, merged, now))
  {
    var after := MergedDb(db, main, merged, now);
    assert main in [main] + merged;
    assert forall m :: m in merged ==> m in [main] + merged;
    assert IsMerged(db, s) && db.servers[s].mergedInto.value in merged ==> s !in merged;
    forall t | t in after.servers
      ensures var row := after.servers[t];
              if row.mergedInto.Some?
              then row.mergedInto.value in after.servers && !IsMerged(after, row.mergedInto.value) && !row.enabled
                   && row.mergedIntoAt.Some?
              else row.mergedIntoAt.None? && row.mergedStatsAt.None?
    {
      var row := Repointed(db.servers[t], t, main, merged, now);
      assert after.servers[t].mergedInto == row.mergedInto;
      if row.mergedInto.Some? {
        var u := row.mergedInto.value;
        assert u in db.servers && !IsMerged(db, u) && u !in merged;
      }
    }
  }

  lemma MergeKeepsLinks(st: Tracked, main: ServerId, merged: seq<ServerId>, now: int)
    requires Good(st) && MergeFailure(st.db, main, merged).None?
    ensures LinksAgree(Apply(st, Merge(main, merged, now)))
  {
    var after := Apply(st, Merge(main, merged, now));
    assert forall m :: m in [main] + merged ==> m in st.db.servers;
    assert main in [main] + merged;
    forall a, b | (a, b) in after.links
      ensures a in after.db.servers && b in after.db.servers && Root(after.db, a) == Root(after.db, b)
    {
      if (a, b) in st.links {
        MergeIsUnion(st.db, main, merged, now, a);
        MergeIsUnion(st.db, main, merged, now, b);
      } else {
        assert a in merged && b == main && a in [main] + merged;
        MergeIsUnion(st.db, main, merged, now, a);
        MergeIsUnion(st.db, main, merged, now, b);
      }
    }
    forall s | s in after.db.servers ensures Connected(after.links, s, Root(after.db, s)) {
      var r := Root(st.db, s);
      MergeIsUnion(st.db, main, merged, now, s);
      ConnectedMore(st.links, after.links, s, r);
      if r in merged {
        assert (r, main) in after.links;
        ConnectedStep(after.links, s, r, main);
      }
    }
  }

  lemma MergeKeepsGood(st: Tracked, main: ServerId, merged: seq<ServerId>, now: int)
    requires Good(st) && MergeFailure(st.db, main, merged).None?
    ensures Good(Apply(st, Merge(main, merged, now)))
  {
    MergeKeepsLinks(st, main, merged, now);
    var after := Apply(st, Merge(main, merged, now));
    assert main in [main] + merged;
    MergeIsUnion(st.db, main, merged, now, main);
    forall g | g in after.db.games
      ensures after.origin[g] in after.db.servers
      ensures after.db.games[g].server == Root(after.db, after.origin[g])
    {
      MergeIsUnion(st.db, main, merged, now, st.origin[g]);
    }
  }

  lemma RootsUnchanged(db: Db, db': Db)
    requires db'.servers.Keys >= db.servers.Keys
    requires forall s :: s in db.servers ==> db'.servers[s].mergedInto == db.servers[s].mergedInto
    ensures forall s :: s in db.servers ==> Root(db', s) == Root(db, s) && IsMerged(db', s) == IsMerged(db, s)
  {
  }

  lemma StepKeepsGood(st: Tracked, e: Event)
    requires Good(st) && SavedToUnmerged(st, e)
    ensures Good(Apply(st, e))
  {
    var after := Apply(st, e);
    if e.Merge? {
      if MergeFailure(st.db, e.main, e.merged).None? {
        MergeKeepsGood(st, e.main, e.merged, e.now);
      }
    } else {
      RootsUnchanged(st.db, after.db);
      forall s | s in after.db.servers ensures Connected(after.links, s, Root(after.db, s)) {
        if s !in st.db.servers {
          ConnectedSelf(after.links, s);
        } else {
          assert Connected(st.links, s, Root(st.db, s));
        }
      }
    }
  }

  /** Saving a new game keeps the invariant just when the server it is saved under is not merged. */
  lemma SaveKeepsGoodIffUnmerged(st: Tracked, g: GameId, game: Game)
    requires Good(st) && g !in st.db.games && game.server in st.db.servers
    ensures Good(Apply(st, SaveGame(g, game))) <==> !IsMerged(st.db, game.server)
  {
    var after := Apply(st, SaveGame(g, game));
    if IsMerged(st.db, game.server) {
      assert after.db.games[g].server == game.server && after.origin[g] == game.server;
      assert !IsMerged(st.db, Root(st.db, game.server));
    } else {
      StepKeepsGood(st, SaveGame(g, game));
    }
  }

  ghost predicate SavesToUnmerged(st: Tracked, es: seq<Event>) {
    es != [] ==> SavesToUnmerged(st, es[..|es| - 1]) && SavedToUnmerged(Run(st, es[..|es| - 1]), es[|es| - 1])
  }

  /** Every run of events keeps the invariant. */
  lemma {:induction false} RunKeepsGood(st: Tracked, es: seq<Event>)
    requires Good(st) && SavesToUnmerged(st, es)
    ensures Good(Run(st, es))
  {
    if es != [] {
      RunKeepsGood(st, es[..|es| - 1]);
      StepKeepsGood(Run(st, es[..|es| - 1]), es[|es| - 1]);
    }
  }

  lemma {:induction false} PathKeepsRoot(st: Tracked, p: seq<ServerId>, a: ServerId, b: ServerId)
    requires LinksAgree(st) && IsPath(st.links, p, a, b)
    ensures Root(st.db, a) == Root(st.db, b)
    decreases |p|
  {
    if |p| > 1 {
      var q := p[..|p| - 1];
      assert Linked(st.links, p[|p| - 2], p[|p| - 1]);
      PathKeepsRoot(st, q, a, p[|p| - 2]);
    }
  }

  /**
   After any run from the empty database, two servers have the same root just when the successful merges
   connect them, and a server's root is itself never merged.
   */
  lemma SameRootIffConnected(es: seq<Event>, a: ServerId, b: ServerId)
    requires SavesToUnmerged(EMPTY, es)
    requires a in Run(EMPTY, es).db.servers && b in Run(EMPTY, es).db.servers
    ensures var st := Run(EMPTY, es);
            && (Root(st.db, a) == Root(st.db, b) <==> Connected(st.links, a, b))
            && !IsMerged(st.db, Root(st.db, a))
  {
    RunKeepsGood(EMPTY, es);
    var st := Run(EMPTY, es);
    if Connected(st.links, a, b) {
      var p :| IsPath(st.links, p, a, b);
      PathKeepsRoot(st, p, a, b);
    }
    if Root(st.db, a) == Root(st.db, b) {
      assert Connected(st.links, b, Root(st.db, b));
      var p :| IsPath(st.links, p, b, Root(st.db, b));
      ConnectedBack(st.links, p, a, b, Root(st.db, b));
    }
  }

  // ---------------------------------------------------------------- counters over a run

  /** Every server's counters are what a recount of its counted games gives. */
  ghost predicate CountersExact(st: Tracked) {
    && st.counted <= st.db.games.Keys
    && forall s :: s in st.db.servers ==>
      st.db.servers[s].counters == Recount(Played(st.db.games), GamesOf(st.db.games, s) * st.counted)
  }

  /** A counter update is for a game no older than those already counted on its server. */
  ghost predicate CountsInOrder(st: Tracked, e: Event) {
    e.CountGame? && e.id in st.db.games ==>
      forall x :: x in GamesOf(st.db.games, st.db.games[e.id].server) * st.counted ==> x <= e.id
  }

  lemma RecountIgnoresOthers(played: map<GameId, Moment>, played': map<GameId, Moment>, ids: set<GameId>)
    requires ids <= played.Keys && ids <= played'.Keys
    requires forall g :: g in ids ==> played[g] == played'[g]
    ensures Recount(played, ids) == Recount(played', ids)
  {
  }

  /** A counter update keeps the counters exact just when it comes in order. */
  lemma CountKeepsExactIff(st: Tracked, g: GameId)
    requires CountersExact(st) && g in st.db.games && st.db.games[g].server in st.db.servers
    ensures CountersExact(Apply(st, CountGame(g))) <==> CountsInOrder(st, CountGame(g))
  {
    var after := Apply(st, CountGame(g));
    var owner := st.db.games[g].server;
    var own := GamesOf(st.db.games, owner);
    assert own * after.counted == own * st.counted + {g};
    AdvanceExactIff(Played(st.db.games), own * st.counted, g);
    forall s | s in st.db.servers && s != owner
      ensures GamesOf(st.db.games, s) * after.counted == GamesOf(st.db.games, s) * st.counted {}
    assert after.db.servers[owner].counters == Advance(st.db.servers[owner].counters, g, st.db.games[g].at);
  }

  /** A merge leaves the counters exact, and exact for all saved games on the servers it touches. */
  lemma MergeKeepsExact(st: Tracked, main: ServerId, merged: seq<ServerId>, now: int)
    requires CountersExact(st) && MergeFailure(st.db, main, merged).None?
    ensures CountersExact(Apply(st, Merge(main, merged, now)))
  {
    var after := Apply(st, Merge(main, merged, now));
    var touched := {main} + FiniteSets.SetOf(merged);
    forall s | s in after.db.servers
      ensures after.db.servers[s].counters
           == Recount(Played(after.db.games), GamesOf(after.db.games, s) * after.counted)
    {
      if s in touched {
        assert GamesOf(after.db.games, s) * after.counted == GamesOf(after.db.games, s);
      } else {
        assert GamesOf(after.db.games, s) == GamesOf(st.db.games, s);
        assert GamesOf(after.db.games, s) * after.counted == GamesOf(st.db.games, s) * st.counted;
        RecountIgnoresOthers(Played(st.db.games), Played(after.db.games), GamesOf(st.db.games, s) * st.counted);
      }
    }
  }

  lemma MergeRepairsTouched(st: Tracked, main: ServerId, merged: seq<ServerId>, now: int, s: ServerId)
    requires MergeFailure(st.db, main, merged).None? && s in [main] + merged
    ensures var after := Apply(st, Merge(main, merged, now)).db;
            && s in after.servers && after.servers[s].counters == CountersOf(after.games, s)
            && (s in merged ==> after.servers[s].counters == NO_GAMES)
  {
    var after := Apply(st, Merge(main, merged, now)).db;
    assert s in merged ==> GamesOf(after.games, s) == {};
  }

  ghost predicate AllCountsInOrder(st: Tracked, es: seq<Event>) {
    es != [] ==> AllCountsInOrder(st, es[..|es| - 1]) && CountsInOrder(Run(st, es[..|es| - 1]), es[|es| - 1])
  }

  lemma StepKeepsExact(st: Tracked, e: Event)
    requires Good(st) && CountersExact(st) && CountsInOrder(st, e)
    ensures CountersExact(Apply(st, e))
  {
    var after := Apply(st, e);
    match e
    case CreateServer(s) =>
      if s !in st.db.servers {
        assert GamesOf(st.db.games, s) == {} by {
          forall g | g in st.db.games ensures st.db.games[g].server != s {
            assert st.origin[g] in st.db.servers;
          }
        }
      }
    case SaveGame(g, game) =>
      forall s | s in st.db.servers
        ensures after.db.servers[s].counters
             == Recount(Played(after.db.games), GamesOf(after.db.games, s) * after.counted)
      {
        assert GamesOf(after.db.games, s) * after.counted == GamesOf(st.db.games, s) * st.counted;
        RecountIgnoresOthers(Played(st.db.games), Played(after.db.games), GamesOf(st.db.games, s) * st.counted);
      }
    case CountGame(g) =>
      if g in st.db.games {
        assert st.db.games[g].server in st.db.servers;
        CountKeepsExactIff(st, g);
      }
    case Merge(main, merged, now) =>
      if MergeFailure(st.db, main, merged).None? {
        MergeKeepsExact(st, main, merged, now);
      }
  }

  /** Over any run with in-order updates the incremental counters agree with the recount at every step. */
  lemma {:induction false} RunKeepsExact(es: seq<Event>)
    requires SavesToUnmerged(EMPTY, es) && AllCountsInOrder(EMPTY, es)
    ensures CountersExact(Run(EMPTY, es))
  {
    if es != [] {
      RunKeepsExact(es[..|es| - 1]);
      RunKeepsGood(EMPTY, es[..|es| - 1]);
      StepKeepsExact(Run(EMPTY, es[..|es| - 1]), es[|es| - 1]);
    }
  }
}
