/**
 What ranking means: positions number each partition 1..n by points and age, ranking again changes nothing, and
 the passes that fill a year's leaderboards touch disjoint categories, so that their order does not matter.
 */
module Leaderboards {
  import opened Wrappers
  import opened Categories
  import opened Stats
  import FiniteSets

  // ---------------------------------------------------------------- one partition

  /** A row that precedes another has strictly fewer rows ahead of it. */
  lemma FewerAhead(rows: Rows, r: Ranking, a: RowId, b: RowId)
    requires a in rows && b in rows && Before(rows, a, b)
    requires rows[a].category == rows[b].category && rows[a].group == rows[b].group && Matches(rows, a, r)
    ensures RowNumber(rows, r, a) < RowNumber(rows, r, b)
  {
    assert a in Ahead(rows, r, b) && a !in Ahead(rows, r, a);
    FiniteSets.SubsetSize(Ahead(rows, r, a) + {a}, Ahead(rows, r, b));
  }

  lemma WithinSize(rows: Rows, r: Ranking, id: RowId)
    requires id in rows && Matches(rows, id, r)
    ensures 1 <= RowNumber(rows, r, id) <= |Partition(rows, r, rows[id].category, rows[id].group)|
  {
    var p := Partition(rows, r, rows[id].category, rows[id].group);
    assert id in p && id !in Ahead(rows, r, id);
    FiniteSets.SubsetSize(Ahead(rows, r, id) + {id}, p);
  }

  /** The numbers given out among some of the partition's rows. */
  ghost function NumbersAmong(rows: Rows, r: Ranking, ids: set<RowId>): set<int>
    requires ids <= rows.Keys
  {
    set id | id in ids :: RowNumber(rows, r, id)
  }

  lemma {:induction false} NumbersDiffer(rows: Rows, r: Ranking, c: Category, group: Group, ids: set<RowId>)
    requires ids <= Partition(rows, r, c, group)
    ensures |NumbersAmong(rows, r, ids)| == |ids|
  {
    if ids == {} {
      assert NumbersAmong(rows, r, ids) == {};
    } else {
      var id := FiniteSets.Min(ids);
      var rest := ids - {id};
      NumbersDiffer(rows, r, c, group, rest);
      assert NumbersAmong(rows, r, ids) == NumbersAmong(rows, r, rest) + {RowNumber(rows, r, id)};
      forall x | x in rest ensures RowNumber(rows, r, x) != RowNumber(rows, r, id) {
        if Before(rows, x, id) { FewerAhead(rows, r, x, id); } else { FewerAhead(rows, r, id, x); }
      }
    }
  }

  /**
   Ranking numbers each partition of n rows with exactly 1..n, every number once, by points descending and
   then id ascending.
   */
  lemma PartitionNumbered(rows: Rows, r: Ranking, c: Category, group: Group)
    ensures var p := Partition(rows, r, c, group);
            && (set id | id in p :: RowNumber(rows, r, id)) == FiniteSets.Upto(|p|)
            && (forall id :: id in p ==> Ranked(rows, r)[id].position == Some(RowNumber(rows, r, id)))
    ensures var p, after := Partition(rows, r, c, group), Ranked(rows, r);
            forall a, b :: a in p && b in p ==>
              (rows[a].points > rows[b].points || (rows[a].points == rows[b].points && a < b)
               <==> after[a].position.value < after[b].position.value)
  {
    var p := Partition(rows, r, c, group);
    forall a, b | a in p && b in p
      ensures rows[a].points > rows[b].points || (rows[a].points == rows[b].points && a < b)
         <==> RowNumber(rows, r, a) < RowNumber(rows, r, b)
    {
      NumbersOrdered(rows, r, a, b);
    }
    NumbersFillUp(rows, r, c, group);
  }

  lemma NumbersOrdered(rows: Rows, r: Ranking, a: RowId, b: RowId)
    requires Matches(rows, a, r) && Matches(rows, b, r)
    requires rows[a].category == rows[b].category && rows[a].group == rows[b].group
    ensures rows[a].points > rows[b].points || (rows[a].points == rows[b].points && a < b)
       <==> RowNumber(rows, r, a) < RowNumber(rows, r, b)
  {
    if Before(rows, a, b) {
      FewerAhead(rows, r, a, b);
    } else if a != b {
      FewerAhead(rows, r, b, a);
    }
  }

  lemma NumbersFillUp(rows: Rows, r: Ranking, c: Category, group: Group)
    ensures var p := Partition(rows, r, c, group);
            (set id | id in p :: RowNumber(rows, r, id)) == FiniteSets.Upto(|p|)
  {
    var p := Partition(rows, r, c, group);
    forall id | id in p ensures RowNumber(rows, r, id) in FiniteSets.Upto(|p|) {
      WithinSize(rows, r, id);
    }
    NumbersDiffer(rows, r, c, group, p);
    assert NumbersAmong(rows, r, p) == set id | id in p :: RowNumber(rows, r, id);
    FiniteSets.SubsetOfEqualSize(NumbersAmong(rows, r, p), FiniteSets.Upto(|p|));
  }

  // ---------------------------------------------------------------- ranking reads no positions

  ghost predicate SameButPositions(a: Rows, b: Rows) {
    a.Keys == b.Keys && forall id :: id in a ==> b[id] == a[id].(position := b[id].position)
  }

  lemma SameMeeting(a: Rows, b: Rows, row: Row, r: Ranking)
    requires SameButPositions(a, b)
    ensures Qualifies(a, row, r) == Qualifies(b, row, r)
  {
    if r.qualify.Some? {
      forall c | c in r.qualify.value
        ensures Meeting(a, row.profile, row.group, r.year, c, r.qualify.value[c])
             == Meeting(b, row.profile, row.group, r.year, c, r.qualify.value[c])
      {
        forall id ensures id in Meeting(a, row.profile, row.group, r.year, c, r.qualify.value[c])
                     <==> id in Meeting(b, row.profile, row.group, r.year, c, r.qualify.value[c])
        {
          if id in a { assert b[id] == a[id].(position := b[id].position); }
        }
      }
    }
  }

  lemma SameMatches(a: Rows, b: Rows, r: Ranking, id: RowId)
    requires SameButPositions(a, b)
    ensures Matches(a, id, r) == Matches(b, id, r)
  {
    if id in a {
      SameMeeting(a, b, a[id], r);
      assert Qualifies(b, b[id], r) == Qualifies(b, a[id], r);
    }
  }

  /** Where a row is placed depends on the other rows' positions in no way. */
  lemma SamePlaces(a: Rows, b: Rows, r: Ranking, id: RowId)
    requires SameButPositions(a, b) && id in a
    requires a[id].position == b[id].position || Matches(a, id, r) || Clears(a, r, a[id].year, a[id].category)
    ensures Placed(a, r, id) == Placed(b, r, id)
  {
    forall x ensures Matches(a, x, r) == Matches(b, x, r) {
      SameMatches(a, b, r, x);
    }
    assert MatchesIn(a, r, a[id].category) == MatchesIn(b, r, a[id].category);
    assert Partition(a, r, a[id].category, a[id].group) == Partition(b, r, a[id].category, a[id].group);
    assert Ahead(a, r, id) == Ahead(b, r, id);
  }

  lemma RankedKeepsRest(rows: Rows, r: Ranking)
    ensures SameButPositions(rows, Ranked(rows, r))
  {
  }

  /** Ranking again changes nothing. */
  lemma RankTwice(rows: Rows, r: Ranking)
    ensures Ranked(Ranked(rows, r), r) == Ranked(rows, r)
  {
    var once := Ranked(rows, r);
    RankedKeepsRest(rows, r);
    forall id | id in rows ensures Placed(once, r, id) == once[id].position {
      if Matches(rows, id, r) || Clears(rows, r, rows[id].year, rows[id].category) {
        SamePlaces(rows, once, r, id);
      } else {
        SamePlaces(once, rows, r, id);
      }
    }
    FiniteSets.MapsEqual(Ranked(once, r), once);
  }

  /**
   What becomes of one row.  With requirements, a category of the year in which some row matches ends with
   positions on exactly the matching rows, whatever the group filter; otherwise the matching rows get a
   position and all others keep theirs, stale ones included.
   */
  lemma RankOutcome(rows: Rows, r: Ranking, id: RowId)
    requires id in rows
    ensures var after := Ranked(rows, r)[id];
            && after == rows[id].(position := after.position)
            && (Matches(rows, id, r) ==> after.position.Some?)
            && (!Matches(rows, id, r) ==>
              after.position ==
                if r.qualify.Some? && r.qualify.value != map[] && rows[id].year == r.year
                   && exists x :: x in MatchesIn(rows, r, rows[id].category)
                then None else rows[id].position)
  {
    var some := MatchesIn(rows, r, rows[id].category);
    if some != {} {
      var x := FiniteSets.Member(some);
      assert exists x :: x in some;
    }
  }

  /**
   A ranking of some groups leaves all rows of the other groups as they are if and only if none of them with a
   position is in a category that the ranking clears.
   */
  lemma OtherGroupsKeptIff(rows: Rows, r: Ranking, groups: set<Group>)
    requires r.groups == Some(groups)
    ensures (forall id :: id in rows && rows[id].group !in groups ==> Ranked(rows, r)[id] == rows[id])
       <==> (forall id :: id in rows && rows[id].group !in groups ==>
              rows[id].position.None? || !Clears(rows, r, rows[id].year, rows[id].category))
  {
    forall id | id in rows && rows[id].group !in groups
      ensures Ranked(rows, r)[id] == rows[id]
         <==> rows[id].position.None? || !Clears(rows, r, rows[id].year, rows[id].category)
    {
      assert !Matches(rows, id, r);
    }
  }

  /** The leader of group 2 and, in group 1, a player with a ratio and enough time to qualify. */
  const TWO_GROUPS: Rows := map[
    1 := Row(2020, Time, 1, Group(1), 40000.0, None),
    2 := Row(2020, SpmRatio, 1, Group(1), 2.0, None),
    3 := Row(2020, SpmRatio, 7, Group(2), 3.0, Some(1))]

  /** Ranking group 1 alone takes the position of group 2's leader away. */
  lemma OtherGroupCleared()
    ensures var r := Only(2020, [SpmRatio], Time, MIN_TIME, Some({Group(1)}));
            && 2 in Ranked(TWO_GROUPS, r) && Ranked(TWO_GROUPS, r)[2].position == Some(1)
            && 3 in Ranked(TWO_GROUPS, r) && Ranked(TWO_GROUPS, r)[3] == TWO_GROUPS[3].(position := None)
  {
    var rows, r := TWO_GROUPS, Only(2020, [SpmRatio], Time, MIN_TIME, Some({Group(1)}));
    assert 1 in Meeting(rows, 1, Group(1), 2020, Time, MIN_TIME);
    assert Matches(rows, 2, r);
    assert 2 in MatchesIn(rows, r, SpmRatio);
    assert Ahead(rows, r, 2) == {};
    assert !Matches(rows, 3, r);
    assert Placed(rows, r, 2) == Some(1);
    assert Time in r.qualify.value;
    assert Clears(rows, r, 2020, SpmRatio);
    assert Placed(rows, r, 3) == None;
  }

  // ---------------------------------------------------------------- several passes

  /** The pass is about this category in this year. */
  predicate Reaches(r: Ranking, year: int, c: Category) {
    r.year == year && Selects(r, c)
  }

  /** Nothing is reached by both. */
  ghost predicate Separate(a: Ranking, b: Ranking) {
    forall year, c :: !(Reaches(a, year, c) && Reaches(b, year, c))
  }

  ghost predicate AllSeparate(passes: seq<Ranking>) {
    forall i, j :: 0 <= i < j < |passes| ==> Separate(passes[i], passes[j])
  }

  /** A ranking leaves categories and years it does not reach alone. */
  lemma UnreachedKept(rows: Rows, r: Ranking, id: RowId)
    requires id in rows && !Reaches(r, rows[id].year, rows[id].category)
    ensures Placed(rows, r, id) == rows[id].position
  {
    if rows[id].year == r.year {
      assert MatchesIn(rows, r, rows[id].category) == {};
    }
  }

  /** Separate rankings commute. */
  lemma RanksCommute(rows: Rows, a: Ranking, b: Ranking)
    requires Separate(a, b)
    ensures Ranked(Ranked(rows, a), b) == Ranked(Ranked(rows, b), a)
  {
    forall id | id in rows ensures Ranked(Ranked(rows, a), b)[id] == Ranked(Ranked(rows, b), a)[id] {
      PlacedAfter(rows, a, b, id);
      PlacedAfter(rows, b, a, id);
    }
    FiniteSets.MapsEqual(Ranked(Ranked(rows, a), b), Ranked(Ranked(rows, b), a));
  }

  /** After ranking a, ranking the separate b places a row of b as it would have before. */
  lemma PlacedAfter(rows: Rows, a: Ranking, b: Ranking, id: RowId)
    requires Separate(a, b) && id in rows
    ensures Placed(Ranked(rows, a), b, id)
         == if Reaches(b, rows[id].year, rows[id].category) then Placed(rows, b, id) else Placed(rows, a, id)
  {
    RankedKeepsRest(rows, a);
    if Reaches(b, rows[id].year, rows[id].category) {
      UnreachedKept(rows, a, id);
      SamePlaces(rows, Ranked(rows, a), b, id);
    } else {
      UnreachedKept(Ranked(rows, a), b, id);
    }
  }

  function RankAll(rows: Rows, passes: seq<Ranking>): Rows {
    if passes == [] then rows else Ranked(RankAll(rows, passes[..|passes| - 1]), passes[|passes| - 1])
  }

  ghost predicate ReachedBySome(passes: seq<Ranking>, year: int, c: Category) {
    exists i :: 0 <= i < |passes| && Reaches(passes[i], year, c)
  }

  lemma {:induction false} RankAllKeepsRest(rows: Rows, passes: seq<Ranking>)
    ensures SameButPositions(rows, RankAll(rows, passes))
  {
    if passes != [] {
      RankAllKeepsRest(rows, passes[..|passes| - 1]);
    }
  }

  lemma {:induction false} UnreachedByAllKept(rows: Rows, passes: seq<Ranking>, id: RowId)
    requires id in rows && !ReachedBySome(passes, rows[id].year, rows[id].category)
    ensures id in RankAll(rows, passes) && RankAll(rows, passes)[id] == rows[id]
  {
    RankAllKeepsRest(rows, passes);
    if passes != [] {
      var init, last := passes[..|passes| - 1], passes[|passes| - 1];
      assert !ReachedBySome(init, rows[id].year, rows[id].category);
      UnreachedByAllKept(rows, init, id);
      assert !Reaches(last, rows[id].year, rows[id].category);
      UnreachedKept(RankAll(rows, init), last, id);
    }
  }

  /**
   The closed form of a sequence of separate passes: a row is placed by the one pass that reaches its category
   and year, reading only the original points, and kept if there is none.
   */
  lemma {:induction false} RankAllClosedForm(rows: Rows, passes: seq<Ranking>, id: RowId)
    requires AllSeparate(passes) && id in rows
    ensures id in RankAll(rows, passes)
    ensures forall i :: 0 <= i < |passes| && Reaches(passes[i], rows[id].year, rows[id].category) ==>
              RankAll(rows, passes)[id] == rows[id].(position := Placed(rows, passes[i], id))
    ensures !ReachedBySome(passes, rows[id].year, rows[id].category) ==> RankAll(rows, passes)[id] == rows[id]
  {
    RankAllKeepsRest(rows, passes);
    if !ReachedBySome(passes, rows[id].year, rows[id].category) {
      UnreachedByAllKept(rows, passes, id);
    }
    if passes != [] {
      var n := |passes| - 1;
      var init, last, year, c := passes[..n], passes[n], rows[id].year, rows[id].category;
      assert AllSeparate(init);
      RankAllClosedForm(rows, init, id);
      RankAllKeepsRest(rows, init);
      var before := RankAll(rows, init);
      forall i | 0 <= i < |passes| && Reaches(passes[i], year, c)
        ensures RankAll(rows, passes)[id] == rows[id].(position := Placed(rows, passes[i], id))
      {
        if i < n {
          assert init[i] == passes[i];
          assert Separate(passes[i], passes[n]);
          UnreachedKept(before, last, id);
        } else {
          forall j | 0 <= j < |init| ensures !Reaches(init[j], year, c) {
            assert Separate(passes[j], passes[n]);
          }
          assert before[id] == rows[id];
          SamePlaces(rows, before, last, id);
        }
      }
    }
  }

  lemma ReachKept(p: seq<Ranking>, q: seq<Ranking>, year: int, c: Category)
    requires multiset(p) == multiset(q) && ReachedBySome(p, year, c)
    ensures ReachedBySome(q, year, c)
  {
    var i :| 0 <= i < |p| && Reaches(p[i], year, c);
    assert p[i] in multiset(q);
    var j :| 0 <= j < |q| && q[j] == p[i];
  }

  /** Separate passes give the same table in any order. */
  lemma AnyOrder(rows: Rows, p: seq<Ranking>, q: seq<Ranking>)
    requires AllSeparate(p) && AllSeparate(q) && multiset(p) == multiset(q)
    ensures RankAll(rows, p) == RankAll(rows, q)
  {
    RankAllKeepsRest(rows, p);
    RankAllKeepsRest(rows, q);
    forall id | id in rows ensures RankAll(rows, p)[id] == RankAll(rows, q)[id] {
      RankAllClosedForm(rows, p, id);
      RankAllClosedForm(rows, q, id);
      var year, c := rows[id].year, rows[id].category;
      if ReachedBySome(p, year, c) {
        var i :| 0 <= i < |p| && Reaches(p[i], year, c);
        assert p[i] in multiset(q);
        var j :| 0 <= j < |q| && q[j] == p[i];
      } else if ReachedBySome(q, year, c) {
        ReachKept(q, p, year, c);
      }
    }
    FiniteSets.MapsEqual(RankAll(rows, p), RankAll(rows, q));
  }

  // ---------------------------------------------------------------- the yearly update

  function Only(year: int, cats: seq<Category>, c: Category, least: real, groups: Option<set<Group>>): Ranking {
    Ranking(year, cats, [], Some(map[c := least]), groups)
  }

  function Excluding(year: int, cats: seq<Category>, groups: Option<set<Group>>): Ranking {
    Ranking(year, [], cats, None, groups)
  }

  function PlayerPasses(year: int): seq<Ranking> {
    [ Only(year, [SpmRatio], Time, MIN_TIME, None),
      Only(year, [SprRatio], Games, MIN_GAMES, None),
      Only(year, [KdRatio], Kills, MIN_KILLS, None),
      Only(year, [WeaponHitRatio, WeaponKillRatio], WeaponShots, MIN_WEAPON_SHOTS, None),
      Only(year, [GrenadeHitRatio], GrenadeShots, MIN_GRENADE_SHOTS, None),
      Excluding(year, [SpmRatio, SprRatio, KdRatio, WeaponHitRatio, WeaponKillRatio, GrenadeHitRatio,
                       WeaponTeamhitRatio, GrenadeTeamhitRatio], None)
    ]
  }

  function GametypePasses(year: int): seq<Ranking> {
    [ Only(year, [SpmRatio], Time, MIN_TIME, None),
      Only(year, [SprRatio], Games, MIN_GAMES, None),
      Excluding(year, [SpmRatio, SprRatio], None)
    ]
  }

  function ServerPasses(year: int, groups: Option<set<Group>>): seq<Ranking> {
    [ Only(year, [SpmRatio], Time, MIN_TIME, groups),
      Only(year, [SprRatio], Games, MIN_GAMES, groups),
      Only(year, [KdRatio], Kills, MIN_KILLS, groups),
      Excluding(year, [SpmRatio, SprRatio, KdRatio], groups)
    ]
  }

  /** The one pass over the per-server table that selects a category. */
  function ServerPassFor(year: int, groups: Option<set<Group>>, c: Category): Ranking {
    match c
    case SpmRatio => Only(year, [SpmRatio], Time, MIN_TIME, groups)
    case SprRatio => Only(year, [SprRatio], Games, MIN_GAMES, groups)
    case KdRatio => Only(year, [KdRatio], Kills, MIN_KILLS, groups)
    case _ => Excluding(year, [SpmRatio, SprRatio, KdRatio], groups)
  }

  /** A per-server update places each row of its year by the pass for the row's category, and no other row. */
  lemma ServerPassesPlace(rows: Rows, year: int, groups: Option<set<Group>>, id: RowId)
    requires id in rows
    ensures id in RankAll(rows, ServerPasses(year, groups))
    ensures RankAll(rows, ServerPasses(year, groups))[id] ==
            if rows[id].year != year then rows[id]
            else rows[id].(position := Placed(rows, ServerPassFor(year, groups, rows[id].category), id))
  {
    PassesSeparate(year, groups);
    RankAllClosedForm(rows, ServerPasses(year, groups), id);
    var i := ServerPassAt(year, groups, rows[id].category);
    OtherYearUnreached(year, groups, rows[id].year, rows[id].category);
  }

  lemma ServerPassAt(year: int, groups: Option<set<Group>>, c: Category) returns (i: nat)
    ensures i < |ServerPasses(year, groups)| && ServerPasses(year, groups)[i] == ServerPassFor(year, groups, c)
    ensures Reaches(ServerPasses(year, groups)[i], year, c)
  {
    match c
    case SpmRatio => i := 0;
    case SprRatio => i := 1;
    case KdRatio => i := 2;
    case _ => i := 3;
  }

  lemma OtherYearUnreached(year: int, groups: Option<set<Group>>, other: int, c: Category)
    ensures other != year ==> !ReachedBySome(ServerPasses(year, groups), other, c)
  {
  }

  /** Which pass over the player table selects a category; the two team-hit ratios have none. */
  function PlayerPassOf(c: Category): (i: Option<nat>)
    ensures i.Some? ==> i.value < 6
  {
    match c
    case SpmRatio => Some(0)
    case SprRatio => Some(1)
    case KdRatio => Some(2)
    case WeaponHitRatio => Some(3)
    case WeaponKillRatio => Some(3)
    case GrenadeHitRatio => Some(4)
    case WeaponTeamhitRatio => None
    case GrenadeTeamhitRatio => None
    case _ => Some(5)
  }

  lemma PlayerSelects(year: int, i: nat, c: Category)
    requires i < 6
    ensures Selects(PlayerPasses(year)[i], c) <==> PlayerPassOf(c) == Some(i)
  {
    if i == 5 {
      LastPlayerPassSelects(year, c);
    }
  }

  lemma LastPlayerPassSelects(year: int, c: Category)
    ensures Selects(PlayerPasses(year)[5], c) <==> PlayerPassOf(c) == Some(5)
  {
  }

  lemma PlayerReached(year: int, other: int, c: Category)
    ensures PlayerPassOf(c).Some? ==> Reaches(PlayerPasses(year)[PlayerPassOf(c).value], year, c)
    ensures other != year || PlayerPassOf(c).None? ==> !ReachedBySome(PlayerPasses(year), other, c)
  {
    forall i: nat | i < 6 ensures PlayerPasses(year)[i].year == year
                          ensures Selects(PlayerPasses(year)[i], c) <==> PlayerPassOf(c) == Some(i)
    {
      PlayerSelects(year, i, c);
    }
  }

  /** A yearly update places each row of its year by the pass for its category, and leaves all others as they are. */
  lemma PlayerPassesPlace(rows: Rows, year: int, id: RowId)
    requires id in rows
    ensures id in RankAll(rows, PlayerPasses(year))
    ensures RankAll(rows, PlayerPasses(year))[id] ==
            if rows[id].year != year || PlayerPassOf(rows[id].category).None? then rows[id]
            else rows[id].(position :=
              Placed(rows, PlayerPasses(year)[PlayerPassOf(rows[id].category).value], id))
  {
    PassesSeparate(year, None);
    RankAllClosedForm(rows, PlayerPasses(year), id);
    PlayerReached(year, rows[id].year, rows[id].category);
  }

  /** Which pass over the game type table selects a category. */
  function GametypePassOf(c: Category): (i: nat)
    ensures i < 3
  {
    match c
    case SpmRatio => 0
    case SprRatio => 1
    case _ => 2
  }

  lemma GametypeSelects(year: int, c: Category)
    ensures Selects(GametypePasses(year)[GametypePassOf(c)], c)
  {
  }

  lemma GametypeReached(year: int, other: int, c: Category)
    ensures Reaches(GametypePasses(year)[GametypePassOf(c)], year, c)
    ensures other != year ==> !ReachedBySome(GametypePasses(year), other, c)
  {
    GametypeSelects(year, c);
    forall i: nat | i < 3 ensures GametypePasses(year)[i].year == year {}
  }

  /** A yearly update places each row of its year by the pass for the row's category, and no other row. */
  lemma GametypePassesPlace(rows: Rows, year: int, id: RowId)
    requires id in rows
    ensures id in RankAll(rows, GametypePasses(year))
    ensures RankAll(rows, GametypePasses(year))[id] ==
            if rows[id].year != year then rows[id]
            else rows[id].(position := Placed(rows, GametypePasses(year)[GametypePassOf(rows[id].category)], id))
  {
    PassesSeparate(year, None);
    RankAllClosedForm(rows, GametypePasses(year), id);
    GametypeReached(year, rows[id].year, rows[id].category);
  }

  /** The passes of a yearly update never touch the same category twice. */
  lemma PassesSeparate(year: int, groups: Option<set<Group>>)
    ensures AllSeparate(PlayerPasses(year)) && AllSeparate(GametypePasses(year))
    ensures AllSeparate(ServerPasses(year, groups))
  {
    var p := PlayerPasses(year);
    forall y, c, i, j | 0 <= i < j < |p| ensures !(Reaches(p[i], y, c) && Reaches(p[j], y, c)) {}
    var s := ServerPasses(year, groups);
    forall y, c, i, j | 0 <= i < j < |s| ensures !(Reaches(s[i], y, c) && Reaches(s[j], y, c)) {}
  }

  /** Run ranking passes over a table one after another. */
  method RunPasses(table: StatsManager, passes: seq<Ranking>)
    modifies table`rows
    ensures table.rows == RankAll(old(table.rows), passes)
  {
    var i := 0;
    assert passes[..0] == [];
    while i < |passes|
      invariant 0 <= i <= |passes|
      invariant table.rows == RankAll(old(table.rows), passes[..i])
    {
      table.Rank(passes[i]);
      assert passes[..i + 1][..i] == passes[..i];
      i := i + 1;
    }
    assert passes[..|passes|] == passes;
  }

  /** Refresh the per-server leaderboards of a year, of some servers or of all. */
  method UpdatePerServerPositionsForYear(serverStats: StatsManager, year: int, groups: Option<set<Group>>)
    modifies serverStats`rows
    ensures serverStats.rows == RankAll(old(serverStats.rows), ServerPasses(year, groups))
  {
    RunPasses(serverStats, ServerPasses(year, groups));
  }

  /** Refresh all leaderboards of a year. */
  method UpdatePlayerPositionsForYear(playerStats: StatsManager, gametypeStats: StatsManager,
                                      serverStats: StatsManager, year: int)
    requires playerStats != gametypeStats && playerStats != serverStats && gametypeStats != serverStats
    modifies playerStats`rows, gametypeStats`rows, serverStats`rows
    ensures playerStats.rows == RankAll(old(playerStats.rows), PlayerPasses(year))
    ensures gametypeStats.rows == RankAll(old(gametypeStats.rows), GametypePasses(year))
    ensures serverStats.rows == RankAll(old(serverStats.rows), ServerPasses(year, None))
  {
    RunPasses(playerStats, PlayerPasses(year));
    RunPasses(gametypeStats, GametypePasses(year));
    UpdatePerServerPositionsForYear(serverStats, year, None);
  }
}
