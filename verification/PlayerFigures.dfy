/**
 What a player's figures are, in terms of the player's own rows: what each further row adds to every figure, what
 figures are without any row, and how the ratios follow from the totals.
 */
module PlayerFigures {
  import opened Wrappers
  import opened Categories
  import opened GameCounters
  import opened ServerMerging
  import opened PlayerTotals
  import FiniteSets

  // ---------------------------------------------------------------- one more entry in a column

  lemma SumWith(m: map<PlayerId, int>, id: PlayerId, v: int)
    requires id !in m
    ensures Sum(m[id := v]) == Sum(m) + v
  {
    SumRemove(m[id := v], id);
    assert m[id := v] - {id} == m;
  }

  lemma ValuesWith(m: map<PlayerId, int>, id: PlayerId, v: int)
    requires id !in m
    ensures m[id := v].Values == m.Values + {v}
  {
    forall x | x in m.Values ensures x in m[id := v].Values {
      var k := FiniteSets.KeyOf(m, x);
      assert m[id := v][k] == x;
    }
    assert m[id := v][id] == v;
  }

  /** The larger of a figure, if there is one, and a value. */
  function Lifted(figure: Option<real>, v: int): real {
    if figure.Some? && figure.value >= v as real then figure.value else v as real
  }

  lemma TopWith(values: set<int>, v: int)
    ensures Top(values + {v}) == Some(Lifted(Top(values), v))
  {
    FiniteSets.MaxUnion(values, {v});
    assert FiniteSets.Max({v}) == v;
  }

  lemma CountWith(values: set<int>, v: int)
    ensures |values + {v}| as real == |values| as real + if v in values then 0.0 else 1.0
  {
    if v in values { assert values + {v} == values; }
  }

  /** How a figure changes with one more row that holds `cell` for it, None being nothing. */
  ghost predicate StepsTo(c: Category, cell: Option<int>, already: bool, was: Option<real>, now: Option<real>) {
    if cell.None? || !(IsSummed(c) || IsCounted(c) || IsTop(c)) then now == was
    else if IsSummed(c) then now == Some(OrZero(was) + cell.value as real)
    else if IsCounted(c) then now == Some(OneUnless(was, already))
    else now == Some(Lifted(was, cell.value))
  }

  /** One more game, unless a row of the profile already had it. */
  function OneUnless(figure: Option<real>, already: bool): real {
    OrZero(figure) + if already then 0.0 else 1.0
  }

  lemma SummedWith(m: map<PlayerId, int>, id: PlayerId, v: int, c: Category)
    requires id !in m && IsSummed(c)
    ensures StepsTo(c, Some(v), false, Aggregate(m, c), Aggregate(m[id := v], c))
  {
    SumWith(m, id, v);
    assert id in m[id := v].Keys;
  }

  lemma CountedWith(m: map<PlayerId, int>, id: PlayerId, v: int, c: Category)
    requires id !in m && IsCounted(c)
    ensures StepsTo(c, Some(v), v in m.Values, Aggregate(m, c), Aggregate(m[id := v], c))
  {
    ValuesWith(m, id, v);
    AggregateCounted(m, c);
    AggregateCounted(m[id := v], c);
    CountSteps(c, m.Values, m[id := v].Values, v);
  }

  lemma CountSteps(c: Category, values: set<int>, more: set<int>, v: int)
    requires IsCounted(c) && more == values + {v}
    ensures StepsTo(c, Some(v), v in values, Some(|values| as real), Some(|more| as real))
  {
    CountWith(values, v);
  }

  lemma AggregateCounted(column: map<PlayerId, int>, c: Category)
    requires IsCounted(c)
    ensures Aggregate(column, c) == Some(|column.Values| as real)
  {
  }

  lemma ToppedWith(m: map<PlayerId, int>, id: PlayerId, v: int, c: Category)
    requires id !in m && IsTop(c)
    ensures StepsTo(c, Some(v), false, Aggregate(m, c), Aggregate(m[id := v], c))
  {
    ValuesWith(m, id, v);
    TopWith(m.Values, v);
    AggregateTop(m, c);
    AggregateTop(m[id := v], c);
  }

  /** What one more entry does to the aggregates. */
  lemma AggregateWith(m: map<PlayerId, int>, id: PlayerId, v: int, c: Category)
    requires id !in m
    ensures StepsTo(c, Some(v), v in m.Values, Aggregate(m, c), Aggregate(m[id := v], c))
  {
    if IsSummed(c) {
      SummedWith(m, id, v, c);
    } else if IsCounted(c) {
      CountedWith(m, id, v, c);
    } else if IsTop(c) {
      ToppedWith(m, id, v, c);
    }
  }

  // ---------------------------------------------------------------- one more row

  lemma ColumnWith(games: map<GameId, Game>, players: map<PlayerId, Player>, id: PlayerId, p: Player,
                   owners: set<ServerId>, profile: ProfileId, year: int, c: Category)
    requires id !in players
    ensures var cell := Cell(games, p, owners, profile, year, c);
            var column := Column(games, players, owners, profile, year, c);
            && id !in column
            && Column(games, players[id := p], owners, profile, year, c)
               == if cell.Some? then column[id := cell.value] else column
  {
    var cell := Cell(games, p, owners, profile, year, c);
    var column := Column(games, players, owners, profile, year, c);
    var more := Column(games, players[id := p], owners, profile, year, c);
    var expected := if cell.Some? then column[id := cell.value] else column;
    forall k ensures k in more <==> k in expected
             ensures k in more ==> more[k] == expected[k]
    {
      assert k in players && k != id ==> players[id := p][k] == players[k];
    }
    FiniteSets.MapsEqual(more, expected);
  }

  /** The game is played by the profile on one of the servers in the year. */
  predicate PlaysThere(games: map<GameId, Game>, p: Player, owners: set<ServerId>, profile: ProfileId, year: int) {
    p.profile == profile && p.game in games && games[p.game].server in owners && games[p.game].at.year == year
  }

  /** Another row of the profile in the same game. */
  predicate AlreadyIn(players: map<PlayerId, Player>, p: Player) {
    exists q :: q in players && players[q].profile == p.profile && players[q].game == p.game
  }

  lemma GameCountedIff(games: map<GameId, Game>, players: map<PlayerId, Player>, p: Player, owners: set<ServerId>,
                       profile: ProfileId, year: int, c: Category)
    requires Cell(games, p, owners, profile, year, c) == Some(p.game) && IsCounted(c)
    ensures p.game in Column(games, players, owners, profile, year, c).Values <==> AlreadyIn(players, p)
  {
    var column := Column(games, players, owners, profile, year, c);
    if p.game in column.Values {
      var q := FiniteSets.KeyOf(column, p.game);
      assert players[q].profile == p.profile && players[q].game == p.game;
    }
    if AlreadyIn(players, p) {
      var q :| q in players && players[q].profile == p.profile && players[q].game == p.game;
      assert q in column && column[q] == p.game;
    }
  }

  /** A figure after one more row, from what the row holds for it. */
  lemma FigureWith(games: map<GameId, Game>, players: map<PlayerId, Player>, id: PlayerId, p: Player,
                   owners: set<ServerId>, profile: ProfileId, year: int, c: Category)
    requires id !in players && (IsCounted(c) ==> Cell(games, p, owners, profile, year, c) in {None, Some(p.game)})
    ensures StepsTo(c, Cell(games, p, owners, profile, year, c), AlreadyIn(players, p),
                    Plain(games, players, owners, profile, year, c),
                    Plain(games, players[id := p], owners, profile, year, c))
  {
    var cell := Cell(games, p, owners, profile, year, c);
    ColumnWith(games, players, id, p, owners, profile, year, c);
    if cell.Some? {
      FigureMore(games, players, id, p, owners, profile, year, c, cell.value);
    }
  }

  lemma FigureMore(games: map<GameId, Game>, players: map<PlayerId, Player>, id: PlayerId, p: Player,
                   owners: set<ServerId>, profile: ProfileId, year: int, c: Category, v: int)
    requires Cell(games, p, owners, profile, year, c) == Some(v) && (IsCounted(c) ==> v == p.game)
    requires var column := Column(games, players, owners, profile, year, c);
             id !in column && Column(games, players[id := p], owners, profile, year, c) == column[id := v]
    ensures StepsTo(c, Some(v), AlreadyIn(players, p),
                    Plain(games, players, owners, profile, year, c),
                    Plain(games, players[id := p], owners, profile, year, c))
  {
    AggregateWith(Column(games, players, owners, profile, year, c), id, v, c);
    if IsCounted(c) { GameCountedIff(games, players, p, owners, profile, year, c); }
  }

  // ---------------------------------------------------------------- every figure, from the rows' own fields

  /** The categories that are not quotients of others. */
  predicate IsTotal(c: Category) {
    !c.SpmRatio? && !c.SprRatio? && !c.KdRatio?
  }

  /** A figure after one more row of a versus game: the row's own numbers are added. */
  function AfterVersus(c: Category, was: Option<real>, p: Player, already: bool): Option<real> {
    match c
    case Score => Some(OrZero(was) + p.score as real)
    case Time => Some(OrZero(was) + p.time as real)
    case Kills => Some(OrZero(was) + p.kills as real)
    case Deaths => Some(OrZero(was) + p.deaths as real)
    case Arrests => Some(OrZero(was) + p.arrests as real)
    case Games => Some(OneUnless(was, already))
    case TopKillStreak => Some(Lifted(was, p.killStreak))
    case TopArrestStreak => Some(Lifted(was, p.arrestStreak))
    case _ => was
  }

  /** A figure after one more row of a cooperative game: the game's numbers are added. */
  function AfterCoop(c: Category, was: Option<real>, g: Game, already: bool): Option<real> {
    match c
    case CoopScore => Some(OrZero(was) + g.coopScore as real)
    case CoopTime => Some(OrZero(was) + g.duration as real)
    case CoopGames => Some(OneUnless(was, already))
    case _ => was
  }

  lemma StandingIsPlain(games: map<GameId, Game>, players: map<PlayerId, Player>, owners: set<ServerId>,
                        profile: ProfileId, year: int, c: Category)
    requires IsTotal(c)
    ensures Standing(games, players, owners, profile, year, c) == Plain(games, players, owners, profile, year, c)
  {
  }

  /** A figure after one more row, whatever the row. */
  lemma StandingWith(games: map<GameId, Game>, players: map<PlayerId, Player>, id: PlayerId, p: Player,
                     owners: set<ServerId>, profile: ProfileId, year: int, c: Category)
    requires id !in players && IsTotal(c)
    requires IsCounted(c) ==> Cell(games, p, owners, profile, year, c) in {None, Some(p.game)}
    ensures StepsTo(c, Cell(games, p, owners, profile, year, c), AlreadyIn(players, p),
                    Standing(games, players, owners, profile, year, c),
                    Standing(games, players[id := p], owners, profile, year, c))
  {
    StandingIsPlain(games, players, owners, profile, year, c);
    StandingIsPlain(games, players[id := p], owners, profile, year, c);
    FigureWith(games, players, id, p, owners, profile, year, c);
  }

  lemma CountedCell(games: map<GameId, Game>, p: Player, owners: set<ServerId>, profile: ProfileId, year: int,
                    c: Category)
    requires IsCounted(c)
    ensures Cell(games, p, owners, profile, year, c) in {None, Some(p.game)}
  {
  }

  lemma VersusCell(games: map<GameId, Game>, p: Player, owners: set<ServerId>, profile: ProfileId, year: int,
                   c: Category, already: bool, was: Option<real>, now: Option<real>)
    requires IsTotal(c) && PlaysThere(games, p, owners, profile, year)
    requires games[p.game].mode == Versus && games[p.game].playerNum >= 10
    requires StepsTo(c, Cell(games, p, owners, profile, year, c), already, was, now)
    ensures now == AfterVersus(c, was, p, already)
  {
  }

  lemma CoopCell(games: map<GameId, Game>, p: Player, owners: set<ServerId>, profile: ProfileId, year: int,
                 c: Category, already: bool, was: Option<real>, now: Option<real>)
    requires IsTotal(c) && PlaysThere(games, p, owners, profile, year) && games[p.game].mode == CoopMode
    requires StepsTo(c, Cell(games, p, owners, profile, year, c), already, was, now)
    ensures now == AfterCoop(c, was, games[p.game], already)
  {
  }

  /** One more row of a versus game with at least ten players. */
  lemma VersusRowAdds(games: map<GameId, Game>, players: map<PlayerId, Player>, id: PlayerId, p: Player,
                      owners: set<ServerId>, profile: ProfileId, year: int, c: Category)
    requires id !in players && IsTotal(c) && PlaysThere(games, p, owners, profile, year)
    requires games[p.game].mode == Versus && games[p.game].playerNum >= 10
    ensures Standing(games, players[id := p], owners, profile, year, c)
         == AfterVersus(c, Standing(games, players, owners, profile, year, c), p, AlreadyIn(players, p))
  {
    if IsCounted(c) { CountedCell(games, p, owners, profile, year, c); }
    StandingWith(games, players, id, p, owners, profile, year, c);
    VersusCell(games, p, owners, profile, year, c, AlreadyIn(players, p),
               Standing(games, players, owners, profile, year, c),
               Standing(games, players[id := p], owners, profile, year, c));
  }

  /** One more row of a cooperative game, however few its players. */
  lemma CoopRowAdds(games: map<GameId, Game>, players: map<PlayerId, Player>, id: PlayerId, p: Player,
                    owners: set<ServerId>, profile: ProfileId, year: int, c: Category)
    requires id !in players && IsTotal(c) && PlaysThere(games, p, owners, profile, year)
    requires games[p.game].mode == CoopMode
    ensures Standing(games, players[id := p], owners, profile, year, c)
         == AfterCoop(c, Standing(games, players, owners, profile, year, c), games[p.game], AlreadyIn(players, p))
  {
    if IsCounted(c) { CountedCell(games, p, owners, profile, year, c); }
    StandingWith(games, players, id, p, owners, profile, year, c);
    CoopCell(games, p, owners, profile, year, c, AlreadyIn(players, p),
             Standing(games, players, owners, profile, year, c),
             Standing(games, players[id := p], owners, profile, year, c));
  }

  /** Any other row changes nothing: of somebody else, elsewhere, of another year or mode, or of too small a game. */
  lemma OtherRowAddsNothing(games: map<GameId, Game>, players: map<PlayerId, Player>, id: PlayerId, p: Player,
                            owners: set<ServerId>, profile: ProfileId, year: int, c: Category)
    requires id !in players && IsTotal(c)
    requires PlaysThere(games, p, owners, profile, year) ==>
      games[p.game].mode == CoopQmm || (games[p.game].mode == Versus && games[p.game].playerNum < 10)
    ensures Standing(games, players[id := p], owners, profile, year, c)
         == Standing(games, players, owners, profile, year, c)
  {
    assert Cell(games, p, owners, profile, year, c) == None;
    StandingWith(games, players, id, p, owners, profile, year, c);
  }

  /** Without rows there are no sums and no streaks, and zero games. */
  lemma NoRowsNoFigures(games: map<GameId, Game>, owners: set<ServerId>, profile: ProfileId, year: int, c: Category)
    requires IsTotal(c)
    ensures Standing(games, map[], owners, profile, year, c) == if c.Games? || c.CoopGames? then Some(0.0) else None
  {
    FiniteSets.MapsEqual(Column(games, map[], owners, profile, year, c), map[]);
    StandingIsPlain(games, map[], owners, profile, year, c);
  }

  /** A quotient, where there is anything to divide by. */
  ghost predicate IsRatioOf(ratio: Option<real>, a: Option<real>, b: Option<real>, factor: real) {
    if a.Some? && b.Some? && b.value != 0.0 then ratio.Some? && ratio.value * b.value == a.value * factor
    else ratio.None?
  }

  lemma QuotientIsRatio(a: Option<real>, b: Option<real>, factor: real)
    ensures IsRatioOf(Quotient(a, b, factor), a, b, factor)
  {
    if a.Some? && b.Some? && b.value != 0.0 {
      assert a.value / b.value * b.value == a.value;
    }
  }

  /** The score per minute, the score per game and the kills per death. */
  lemma RatiosOfTotals(games: map<GameId, Game>, players: map<PlayerId, Player>, owners: set<ServerId>,
                       profile: ProfileId, year: int)
    ensures IsRatioOf(Standing(games, players, owners, profile, year, SpmRatio),
                      Standing(games, players, owners, profile, year, Score),
                      Standing(games, players, owners, profile, year, Time), 60.0)
    ensures IsRatioOf(Standing(games, players, owners, profile, year, SprRatio),
                      Standing(games, players, owners, profile, year, Score),
                      Standing(games, players, owners, profile, year, Games), 1.0)
    ensures IsRatioOf(Standing(games, players, owners, profile, year, KdRatio),
                      Standing(games, players, owners, profile, year, Kills),
                      Standing(games, players, owners, profile, year, Deaths), 1.0)
  {
    SpmOfTotals(games, players, owners, profile, year);
    SprOfTotals(games, players, owners, profile, year);
    KdOfTotals(games, players, owners, profile, year);
  }

  lemma SpmOfTotals(games: map<GameId, Game>, players: map<PlayerId, Player>, owners: set<ServerId>,
                    profile: ProfileId, year: int)
    ensures IsRatioOf(Standing(games, players, owners, profile, year, SpmRatio),
                      Standing(games, players, owners, profile, year, Score),
                      Standing(games, players, owners, profile, year, Time), 60.0)
  {
    QuotientIsRatio(Standing(games, players, owners, profile, year, Score),
                    Standing(games, players, owners, profile, year, Time), 60.0);
  }

  lemma SprOfTotals(games: map<GameId, Game>, players: map<PlayerId, Player>, owners: set<ServerId>,
                    profile: ProfileId, year: int)
    ensures IsRatioOf(Standing(games, players, owners, profile, year, SprRatio),
                      Standing(games, players, owners, profile, year, Score),
                      Standing(games, players, owners, profile, year, Games), 1.0)
  {
    QuotientIsRatio(Standing(games, players, owners, profile, year, Score),
                    Standing(games, players, owners, profile, year, Games), 1.0);
  }

  lemma KdOfTotals(games: map<GameId, Game>, players: map<PlayerId, Player>, owners: set<ServerId>,
                   profile: ProfileId, year: int)
    ensures IsRatioOf(Standing(games, players, owners, profile, year, KdRatio),
                      Standing(games, players, owners, profile, year, Kills),
                      Standing(games, players, owners, profile, year, Deaths), 1.0)
  {
    QuotientIsRatio(Standing(games, players, owners, profile, year, Kills),
                    Standing(games, players, owners, profile, year, Deaths), 1.0);
  }

  // ---------------------------------------------------------------- positive figures come from rows

  /** Some row counts for the profile and year on the servers. */
  ghost predicate HasRow(games: map<GameId, Game>, players: map<PlayerId, Player>, owners: set<ServerId>,
                         profile: ProfileId, year: int)
  {
    exists p :: p in players && Counts(games, players[p], owners, profile, year)
  }

  lemma TotalNeedsRow(games: map<GameId, Game>, players: map<PlayerId, Player>, owners: set<ServerId>,
                      profile: ProfileId, year: int, c: Category)
    requires OrZero(Plain(games, players, owners, profile, year, c)) > 0.0
             || (IsSummed(c) && Plain(games, players, owners, profile, year, c).Some?)
    ensures HasRow(games, players, owners, profile, year)
  {
    var column := Column(games, players, owners, profile, year, c);
    EmptyAggregate(column, c);
    var p := FiniteSets.Member(column.Keys);
    assert p in players && Counts(games, players[p], owners, profile, year);
  }

  lemma EmptyAggregate(column: map<PlayerId, int>, c: Category)
    ensures column.Keys == {} ==> Aggregate(column, c) == if IsCounted(c) then Some(0.0) else None
  {
    assert column.Keys == {} ==> column.Values == {};
  }

  /** A positive figure, ratios included, comes from some row. */
  lemma FigureNeedsRow(games: map<GameId, Game>, players: map<PlayerId, Player>, owners: set<ServerId>,
                       profile: ProfileId, year: int, c: Category)
    requires OrZero(Standing(games, players, owners, profile, year, c)) > 0.0
    ensures HasRow(games, players, owners, profile, year)
  {
    if IsTotal(c) {
      StandingIsPlain(games, players, owners, profile, year, c);
      TotalNeedsRow(games, players, owners, profile, year, c);
    } else if c.KdRatio? {
      TotalNeedsRow(games, players, owners, profile, year, Kills);
    } else {
      TotalNeedsRow(games, players, owners, profile, year, Score);
    }
  }
}
