/**
 The per-server aggregates of a player's games, and the proof that merging servers conserves them: after the
 merge the main server's totals are the sums, and its top streaks the maxima, over the servers before it.
 */
module PlayerTotals {
  import opened Wrappers
  import opened Categories
  import opened GameCounters
  import opened ServerMerging
  import FiniteSets

  type PlayerId = int
  type ProfileId = int

  /** One player's part in one game. */
  datatype Player = Player(
    game: GameId,
    profile: ProfileId,
    score: int,
    time: int,
    kills: int,
    deaths: int,
    arrests: int,
    killStreak: int,
    arrestStreak: int)

  /** The aggregated column for one player row: the value of the CASE expression, None being NULL. */
  function Measure(p: Player, g: Game, c: Category): Option<int> {
    match c
    case Score => if g.mode.Versus? then Some(p.score) else None
    case Time => if g.mode.Versus? then Some(p.time) else None
    case Kills => if g.mode.Versus? then Some(p.kills) else None
    case Deaths => if g.mode.Versus? then Some(p.deaths) else None
    case Arrests => if g.mode.Versus? then Some(p.arrests) else None
    case TopKillStreak => if g.mode.Versus? then Some(p.killStreak) else None
    case TopArrestStreak => if g.mode.Versus? then Some(p.arrestStreak) else None
    case Games => if g.mode.Versus? then Some(p.game) else None
    case CoopScore => if g.mode.CoopMode? then Some(g.coopScore) else None
    case CoopTime => if g.mode.CoopMode? then Some(g.duration) else None
    case CoopGames => if g.mode.CoopMode? then Some(p.game) else None
    case _ => None
  }

  predicate IsSummed(c: Category) {
    c.Score? || c.Time? || c.Kills? || c.Deaths? || c.Arrests? || c.CoopScore? || c.CoopTime?
  }

  predicate IsCounted(c: Category) {
    c.Games? || c.CoopGames?
  }

  predicate IsTop(c: Category) {
    c.TopKillStreak? || c.TopArrestStreak?
  }

  /** A game that counts: enough players, or cooperative. */
  predicate Qualified(g: Game) {
    g.playerNum >= MIN_PLAYERS || g.mode.CoopMode?
  }

  /** A row that counts for the profile and year on one of the servers. */
  predicate Counts(games: map<GameId, Game>, p: Player, owners: set<ServerId>, profile: ProfileId, year: int) {
    && p.profile == profile && p.game in games
    && games[p.game].server in owners && games[p.game].at.year == year && Qualified(games[p.game])
  }

  /** What one row contributes to a category on the given servers, None being nothing or NULL. */
  function Cell(games: map<GameId, Game>, p: Player, owners: set<ServerId>, profile: ProfileId, year: int, c: Category)
    : Option<int>
  {
    if Counts(games, p, owners, profile, year) then Measure(p, games[p.game], c) else None
  }

  function CellOf(games: map<GameId, Game>, players: map<PlayerId, Player>, owners: set<ServerId>,
                  profile: ProfileId, year: int, c: Category): PlayerId -> Option<int>
  {
    p => if p in players then Cell(games, players[p], owners, profile, year, c) else None
  }

  /** The values of a category's column, by row, for the profile and year on the given servers. */
  function Column(games: map<GameId, Game>, players: map<PlayerId, Player>, owners: set<ServerId>,
                  profile: ProfileId, year: int, c: Category): map<PlayerId, int>
  {
    FiniteSets.Collect(players.Keys, CellOf(games, players, owners, profile, year, c))
  }

  /** SUM over a column. */
  function Sum(column: map<PlayerId, int>): int
    decreases column.Keys
  {
    if column.Keys == {} then 0
    else
      var p := FiniteSets.Min(column.Keys);
      column[p] + Sum(column - {p})
  }

  /** The aggregate of a column, None being NULL. */
  function Aggregate(column: map<PlayerId, int>, c: Category): Option<real> {
    if IsSummed(c) then
      if column.Keys == {} then None else Some(Sum(column) as real)
    else if IsCounted(c) then
      Some(|column.Values| as real)
    else if IsTop(c) then
      Top(column.Values)
    else None
  }

  /** MAX, None being NULL. */
  function Top(values: set<int>): Option<real> {
    if values == {} then None else Some(FiniteSets.Max(values) as real)
  }

  /** A quotient of aggregates: NULL when either is NULL or the divisor is zero. */
  function Quotient(a: Option<real>, b: Option<real>, factor: real): Option<real> {
    if a.None? || b.None? || b.value == 0.0 then None else Some(a.value / b.value * factor)
  }

  /** The value of an aggregate category for the profile and year over the given servers. */
  function Plain(games: map<GameId, Game>, players: map<PlayerId, Player>, owners: set<ServerId>,
                 profile: ProfileId, year: int, c: Category): Option<real>
  {
    Aggregate(Column(games, players, owners, profile, year, c), c)
  }

  /** The value of any category for the profile and year over the given servers. */
  function Standing(games: map<GameId, Game>, players: map<PlayerId, Player>, owners: set<ServerId>,
                    profile: ProfileId, year: int, c: Category): Option<real>
  {
    var plain := d => Plain(games, players, owners, profile, year, d);
    match c
    case SpmRatio => Quotient(plain(Score), plain(Time), 60.0)
    case SprRatio => Quotient(plain(Score), plain(Games), 1.0)
    case KdRatio => Quotient(plain(Kills), plain(Deaths), 1.0)
    case _ => plain(c)
  }

  function OrZero(o: Option<real>): real {
    if o.Some? then o.value else 0.0
  }

  function Greater(a: Option<real>, b: Option<real>): Option<real> {
    if a.None? then b else if b.None? then a else if a.value >= b.value then a else b
  }

  /** The sum of a category over separate servers. */
  function SumOverEach(games: map<GameId, Game>, players: map<PlayerId, Player>, servers: seq<ServerId>,
                       profile: ProfileId, year: int, c: Category): real
  {
    if servers == [] then 0.0
    else OrZero(Plain(games, players, {servers[0]}, profile, year, c))
         + SumOverEach(games, players, servers[1..], profile, year, c)
  }

  /** The greatest value of a category over separate servers. */
  function MaxOverEach(games: map<GameId, Game>, players: map<PlayerId, Player>, servers: seq<ServerId>,
                       profile: ProfileId, year: int, c: Category): Option<real>
  {
    if servers == [] then None
    else Greater(Plain(games, players, {servers[0]}, profile, year, c),
                 MaxOverEach(games, players, servers[1..], profile, year, c))
  }

  // ---------------------------------------------------------------- aggregates of two separate columns

  lemma {:induction false} SumRemove(m: map<PlayerId, int>, p: PlayerId)
    requires p in m
    ensures Sum(m) == m[p] + Sum(m - {p})
    decreases m.Keys
  {
    var q := FiniteSets.Min(m.Keys);
    if q != p {
      SumRemove(m - {q}, p);
      assert q in (m - {p}).Keys;
      assert FiniteSets.Min((m - {p}).Keys) == q;
      assert m - {q} - {p} == m - {p} - {q};
    }
  }

  lemma {:induction false} SumUnion(a: map<PlayerId, int>, b: map<PlayerId, int>)
    requires a.Keys !! b.Keys
    ensures Sum(a + b) == Sum(a) + Sum(b)
    decreases a.Keys
  {
    if a.Keys == {} {
      assert a + b == b;
    } else {
      var p := FiniteSets.Min(a.Keys);
      SumRemove(a + b, p);
      assert a + b - {p} == (a - {p}) + b;
      SumUnion(a - {p}, b);
    }
  }

  lemma ValuesUnion(a: map<PlayerId, int>, b: map<PlayerId, int>)
    requires a.Keys !! b.Keys
    ensures (a + b).Values == a.Values + b.Values
  {
    forall v | v in a.Values + b.Values ensures v in (a + b).Values {
      if v in a.Values {
        var p := FiniteSets.KeyOf(a, v);
        assert (a + b)[p] == v;
      } else {
        var p := FiniteSets.KeyOf(b, v);
        assert (a + b)[p] == v;
      }
    }
  }

  lemma SummedUnion(a: map<PlayerId, int>, b: map<PlayerId, int>, c: Category)
    requires a.Keys !! b.Keys && IsSummed(c)
    ensures OrZero(Aggregate(a + b, c)) == OrZero(Aggregate(a, c)) + OrZero(Aggregate(b, c))
  {
    SumUnion(a, b);
    if a.Keys == {} {
      assert a + b == b;
    } else if b.Keys == {} {
      assert a + b == a;
    } else {
      assert (a + b).Keys != {};
    }
  }

  lemma CountedUnion(a: map<PlayerId, int>, b: map<PlayerId, int>, c: Category)
    requires a.Keys !! b.Keys && a.Values !! b.Values && IsCounted(c)
    ensures OrZero(Aggregate(a + b, c)) == OrZero(Aggregate(a, c)) + OrZero(Aggregate(b, c))
  {
    ValuesUnion(a, b);
    assert |a.Values + b.Values| == |a.Values| + |b.Values|;
  }

  lemma TopUnion(a: map<PlayerId, int>, b: map<PlayerId, int>, c: Category)
    requires a.Keys !! b.Keys && IsTop(c)
    ensures Aggregate(a + b, c) == Greater(Aggregate(a, c), Aggregate(b, c))
  {
    ValuesUnion(a, b);
    TopOfUnion(a.Values, b.Values);
    AggregateTop(a, c);
    AggregateTop(b, c);
    AggregateTop(a + b, c);
  }

  lemma AggregateTop(column: map<PlayerId, int>, c: Category)
    requires IsTop(c)
    ensures Aggregate(column, c) == Top(column.Values)
  {
  }

  lemma TopOfUnion(a: set<int>, b: set<int>)
    ensures Top(a + b) == Greater(Top(a), Top(b))
  {
    FiniteSets.MaxUnion(a, b);
  }

  /** How the aggregates of two columns without a common row, and for counts without a common value, combine. */
  lemma AggregateUnion(a: map<PlayerId, int>, b: map<PlayerId, int>, c: Category)
    requires a.Keys !! b.Keys && (IsCounted(c) ==> a.Values !! b.Values)
    ensures IsSummed(c) || IsCounted(c) ==>
              OrZero(Aggregate(a + b, c)) == OrZero(Aggregate(a, c)) + OrZero(Aggregate(b, c))
    ensures IsTop(c) ==> Aggregate(a + b, c) == Greater(Aggregate(a, c), Aggregate(b, c))
  {
    if IsSummed(c) {
      SummedUnion(a, b, c);
    } else if IsCounted(c) {
      CountedUnion(a, b, c);
    } else if IsTop(c) {
      TopUnion(a, b, c);
    }
  }

  // ---------------------------------------------------------------- all servers of a merge

  /** Splitting off one server splits the column. */
  lemma ColumnSplit(games: map<GameId, Game>, players: map<PlayerId, Player>, s: ServerId, rest: set<ServerId>,
                    profile: ProfileId, year: int, c: Category)
    requires s !in rest
    ensures var a := Column(games, players, {s}, profile, year, c);
            var b := Column(games, players, rest, profile, year, c);
            a.Keys !! b.Keys && Column(games, players, {s} + rest, profile, year, c) == a + b
  {
    var f := CellOf(games, players, {s}, profile, year, c);
    var g := CellOf(games, players, rest, profile, year, c);
    var h := CellOf(games, players, {s} + rest, profile, year, c);
    forall p | p in players
      ensures h(p) == (if f(p).Some? then f(p) else g(p)) && (f(p).None? || g(p).None?)
    {
      CellSplit(games, players[p], s, rest, profile, year, c);
    }
    FiniteSets.CollectSplit(players.Keys, f, g, h);
  }

  lemma CellSplit(games: map<GameId, Game>, p: Player, s: ServerId, rest: set<ServerId>, profile: ProfileId, year: int,
                  c: Category)
    requires s !in rest
    ensures var a, b := Cell(games, p, {s}, profile, year, c), Cell(games, p, rest, profile, year, c);
            Cell(games, p, {s} + rest, profile, year, c) == (if a.Some? then a else b) && (a.None? || b.None?)
  {
  }

  /** Two servers have no game in common. */
  lemma SeparateGames(games: map<GameId, Game>, players: map<PlayerId, Player>, s: ServerId, rest: set<ServerId>,
                      profile: ProfileId, year: int, c: Category)
    requires s !in rest && IsCounted(c)
    ensures Column(games, players, {s}, profile, year, c).Values
         !! Column(games, players, rest, profile, year, c).Values
  {
    var a := Column(games, players, {s}, profile, year, c);
    var b := Column(games, players, rest, profile, year, c);
    forall v | v in a.Values ensures v !in b.Values {
      var p := FiniteSets.KeyOf(a, v);
      assert games[v].server == s;
      if v in b.Values {
        var q := FiniteSets.KeyOf(b, v);
        assert false;
      }
    }
  }

  lemma PlainSplit(games: map<GameId, Game>, players: map<PlayerId, Player>, s: ServerId, rest: set<ServerId>,
                   profile: ProfileId, year: int, c: Category)
    requires s !in rest
    ensures var a := Plain(games, players, {s}, profile, year, c);
            var b := Plain(games, players, rest, profile, year, c);
            var both := Plain(games, players, {s} + rest, profile, year, c);
            && (IsSummed(c) || IsCounted(c) ==> OrZero(both) == OrZero(a) + OrZero(b))
            && (IsTop(c) ==> both == Greater(a, b))
  {
    ColumnSplit(games, players, s, rest, profile, year, c);
    if IsCounted(c) { SeparateGames(games, players, s, rest, profile, year, c); }
    AggregateUnion(Column(games, players, {s}, profile, year, c), Column(games, players, rest, profile, year, c), c);
  }

  lemma NobodyPlayed(games: map<GameId, Game>, players: map<PlayerId, Player>, profile: ProfileId, year: int,
                     c: Category)
    ensures OrZero(Plain(games, players, {}, profile, year, c)) == 0.0
    ensures IsTop(c) ==> Plain(games, players, {}, profile, year, c) == None
  {
    var none := Column(games, players, {}, profile, year, c);
    forall p | p in players ensures p !in none {}
    assert none == map[];
  }

  lemma StandingOfMany(games: map<GameId, Game>, players: map<PlayerId, Player>, servers: seq<ServerId>,
                       profile: ProfileId, year: int, c: Category)
    requires FiniteSets.Distinct(servers)
    ensures var all := Plain(games, players, FiniteSets.SetOf(servers), profile, year, c);
            && (IsSummed(c) || IsCounted(c) ==> OrZero(all) == SumOverEach(games, players, servers, profile, year, c))
            && (IsTop(c) ==> all == MaxOverEach(games, players, servers, profile, year, c))
  {
    if IsSummed(c) || IsCounted(c) {
      SumOfMany(games, players, servers, profile, year, c);
    } else if IsTop(c) {
      TopOfMany(games, players, servers, profile, year, c);
    }
  }

  lemma {:induction false} SumOfMany(games: map<GameId, Game>, players: map<PlayerId, Player>,
                                     servers: seq<ServerId>, profile: ProfileId, year: int, c: Category)
    requires FiniteSets.Distinct(servers) && (IsSummed(c) || IsCounted(c))
    ensures OrZero(Plain(games, players, FiniteSets.SetOf(servers), profile, year, c))
         == SumOverEach(games, players, servers, profile, year, c)
  {
    if servers == [] {
      assert FiniteSets.SetOf(servers) == {};
      NobodyPlayed(games, players, profile, year, c);
    } else {
      FiniteSets.DistinctRest(servers);
      SumOfMany(games, players, servers[1..], profile, year, c);
      PlainOfFirst(games, players, servers, profile, year, c);
    }
  }

  lemma {:induction false} TopOfMany(games: map<GameId, Game>, players: map<PlayerId, Player>,
                                     servers: seq<ServerId>, profile: ProfileId, year: int, c: Category)
    requires FiniteSets.Distinct(servers) && IsTop(c)
    ensures Plain(games, players, FiniteSets.SetOf(servers), profile, year, c)
         == MaxOverEach(games, players, servers, profile, year, c)
  {
    if servers == [] {
      assert FiniteSets.SetOf(servers) == {};
      NobodyPlayed(games, players, profile, year, c);
    } else {
      FiniteSets.DistinctRest(servers);
      TopOfMany(games, players, servers[1..], profile, year, c);
      PlainOfFirst(games, players, servers, profile, year, c);
    }
  }

  lemma PlainOfFirst(games: map<GameId, Game>, players: map<PlayerId, Player>, servers: seq<ServerId>,
                     profile: ProfileId, year: int, c: Category)
    requires FiniteSets.Distinct(servers) && servers != []
    ensures var a := Plain(games, players, {servers[0]}, profile, year, c);
            var b := Plain(games, players, FiniteSets.SetOf(servers[1..]), profile, year, c);
            var all := Plain(games, players, FiniteSets.SetOf(servers), profile, year, c);
            && (IsSummed(c) || IsCounted(c) ==> OrZero(all) == OrZero(a) + OrZero(b))
            && (IsTop(c) ==> all == Greater(a, b))
  {
    FiniteSets.DistinctRest(servers);
    PlainSplit(games, players, servers[0], FiniteSets.SetOf(servers[1..]), profile, year, c);
  }

  /** The main server's column after a merge is the column of all the servers it was merged from. */
  lemma MergedColumn(db: Db, players: map<PlayerId, Player>, main: ServerId, merged: seq<ServerId>,
                     profile: ProfileId, year: int, c: Category)
    ensures Column(MovedGames(db.games, main, merged), players, {main}, profile, year, c)
         == Column(db.games, players, FiniteSets.SetOf([main] + merged), profile, year, c)
  {
    var after := MovedGames(db.games, main, merged);
    var owners := FiniteSets.SetOf([main] + merged);
    var f := CellOf(after, players, {main}, profile, year, c);
    var g := CellOf(db.games, players, owners, profile, year, c);
    forall p | p in players ensures f(p) == g(p) {
      MergedCell(db, players[p], main, merged, profile, year, c);
    }
    FiniteSets.CollectSame(players.Keys, f, g);
  }

  lemma MergedCell(db: Db, p: Player, main: ServerId, merged: seq<ServerId>, profile: ProfileId, year: int, c: Category)
    ensures Cell(MovedGames(db.games, main, merged), p, {main}, profile, year, c)
         == Cell(db.games, p, FiniteSets.SetOf([main] + merged), profile, year, c)
  {
    assert forall s :: s in [main] + merged <==> s == main || s in merged;
  }

  /** After a merge the main server stands for all the servers it was merged from, ratios included. */
  lemma MergedStanding(db: Db, players: map<PlayerId, Player>, main: ServerId, merged: seq<ServerId>, now: int,
                       profile: ProfileId, year: int, c: Category)
    requires MergeFailure(db, main, merged).None?
    ensures Standing(MergedDb(db, main, merged, now).games, players, {main}, profile, year, c)
         == Standing(db.games, players, FiniteSets.SetOf([main] + merged), profile, year, c)
  {
    forall d: Category
      ensures Plain(MergedDb(db, main, merged, now).games, players, {main}, profile, year, d)
           == Plain(db.games, players, FiniteSets.SetOf([main] + merged), profile, year, d)
    {
      MergedColumn(db, players, main, merged, profile, year, d);
    }
  }

  /**
   Merging conserves a player's year: on the main server every summed category and every count of distinct
   games is afterwards the sum, and every top streak the maximum, over the servers before the merge.
   */
  lemma MergeConservesTotals(db: Db, players: map<PlayerId, Player>, main: ServerId, merged: seq<ServerId>, now: int,
                             profile: ProfileId, year: int, c: Category)
    requires MergeFailure(db, main, merged).None?
    ensures var after := Standing(MergedDb(db, main, merged, now).games, players, {main}, profile, year, c);
            && (IsSummed(c) || IsCounted(c) ==>
              OrZero(after) == SumOverEach(db.games, players, [main] + merged, profile, year, c))
            && (IsTop(c) ==> after == MaxOverEach(db.games, players, [main] + merged, profile, year, c))
  {
    MergedStanding(db, players, main, merged, now, profile, year, c);
    MergersDistinct(db, main, merged);
    if IsSummed(c) || IsCounted(c) || IsTop(c) {
      AggregateStanding(db.games, players, FiniteSets.SetOf([main] + merged), profile, year, c);
    }
    StandingOfMany(db.games, players, [main] + merged, profile, year, c);
  }

  lemma MergersDistinct(db: Db, main: ServerId, merged: seq<ServerId>)
    requires MergeFailure(db, main, merged).None?
    ensures FiniteSets.Distinct([main] + merged)
  {
    FiniteSets.DistinctWith(main, merged);
  }

  lemma AggregateStanding(games: map<GameId, Game>, players: map<PlayerId, Player>, owners: set<ServerId>,
                          profile: ProfileId, year: int, c: Category)
    requires IsSummed(c) || IsCounted(c) || IsTop(c)
    ensures Standing(games, players, owners, profile, year, c) == Plain(games, players, owners, profile, year, c)
  {
  }
}
