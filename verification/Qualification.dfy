/**
 Who is placed on a leaderboard: what each ratio requires, in points of other categories, and what becomes of the
 rows of players who do not meet it.
 */
module Qualification {
  import opened Wrappers
  import opened Categories
  import opened Stats
  import opened Leaderboards
  import FiniteSets

  /** The player of the row has at least so many points in a category, in the same group and year. */
  ghost predicate Meets(rows: Rows, row: Row, required: Category, least: real) {
    exists x :: x in rows && rows[x].profile == row.profile && rows[x].group == row.group && rows[x].year == row.year
                && rows[x].category == required && rows[x].points >= least
  }

  /** Somebody in the category and year meets its requirement. */
  ghost predicate SomeoneMeets(rows: Rows, year: int, c: Category, required: Category, least: real) {
    exists id :: id in rows && rows[id].year == year && rows[id].category == c && Meets(rows, rows[id], required, least)
  }

  lemma MeetsIff(rows: Rows, row: Row, required: Category, least: real)
    ensures Meets(rows, row, required, least)
       <==> Meeting(rows, row.profile, row.group, row.year, required, least) != {}
  {
    var meeting := Meeting(rows, row.profile, row.group, row.year, required, least);
    if Meets(rows, row, required, least) {
      var x :| x in rows && rows[x].profile == row.profile && rows[x].group == row.group && rows[x].year == row.year
               && rows[x].category == required && rows[x].points >= least;
      assert x in meeting;
    }
    if meeting != {} {
      var x := FiniteSets.Member(meeting);
      assert rows[x].points >= least;
    }
  }

  lemma OnlyMatches(rows: Rows, year: int, cats: seq<Category>, required: Category, least: real, id: RowId)
    requires id in rows && rows[id].year == year && rows[id].category in cats
    ensures Matches(rows, id, Only(year, cats, required, least, None)) <==> Meets(rows, rows[id], required, least)
  {
    MeetsIff(rows, rows[id], required, least);
    assert required in map[required := least];
  }

  lemma OnlyClears(rows: Rows, year: int, cats: seq<Category>, required: Category, least: real, c: Category)
    requires c in cats
    ensures Clears(rows, Only(year, cats, required, least, None), year, c)
       <==> SomeoneMeets(rows, year, c, required, least)
  {
    var r := Only(year, cats, required, least, None);
    assert required in r.qualify.value;
    if MatchesIn(rows, r, c) != {} {
      var id := FiniteSets.Member(MatchesIn(rows, r, c));
      OnlyMatches(rows, year, cats, required, least, id);
    }
    if SomeoneMeets(rows, year, c, required, least) {
      var id :| id in rows && rows[id].year == year && rows[id].category == c && Meets(rows, rows[id], required, least);
      OnlyMatches(rows, year, cats, required, least, id);
      assert id in MatchesIn(rows, r, c);
    }
  }

  /** Placed if qualified; without a position if only others qualify; and if nobody does, left with what it had. */
  ghost predicate PlacedByRequirement(rows: Rows, id: RowId, required: Category, least: real, position: Option<int>)
    requires id in rows
  {
    if Meets(rows, rows[id], required, least) then position.Some?
    else if SomeoneMeets(rows, rows[id].year, rows[id].category, required, least) then position.None?
    else position == rows[id].position
  }

  lemma OnlyPlaces(rows: Rows, year: int, cats: seq<Category>, required: Category, least: real, id: RowId)
    requires id in rows && rows[id].year == year && rows[id].category in cats
    ensures PlacedByRequirement(rows, id, required, least,
                                Placed(rows, Only(year, cats, required, least, None), id))
  {
    OnlyMatches(rows, year, cats, required, least, id);
    OnlyClears(rows, year, cats, required, least, rows[id].category);
  }

  /** What a ratio requires on the player leaderboards. */
  function PlayerRequires(c: Category): Option<(Category, real)> {
    match c
    case SpmRatio => Some((Time, 36000.0))
    case SprRatio => Some((Games, 100.0))
    case KdRatio => Some((Kills, 500.0))
    case WeaponHitRatio => Some((WeaponShots, 1000.0))
    case WeaponKillRatio => Some((WeaponShots, 1000.0))
    case GrenadeHitRatio => Some((GrenadeShots, 100.0))
    case _ => None
  }

  predicate IsTeamHit(c: Category) {
    c.WeaponTeamhitRatio? || c.GrenadeTeamhitRatio?
  }

  /** Where a row ends: by requirement, unplaced by the update, or placed in any case. */
  ghost predicate EndsAs(rows: Rows, id: RowId, requirement: Option<(Category, real)>, skipped: bool,
                         position: Option<int>)
    requires id in rows
  {
    if requirement.Some? then PlacedByRequirement(rows, id, requirement.value.0, requirement.value.1, position)
    else if skipped then position == rows[id].position
    else position.Some?
  }

  /** The player leaderboards of a year: the required ratios by requirement, no team-hit ratio, and all the rest. */
  lemma PlayerPlaced(rows: Rows, year: int, id: RowId)
    requires id in rows && rows[id].year == year
    ensures var after, c := RankAll(rows, PlayerPasses(year)), rows[id].category;
            && id in after && after[id] == rows[id].(position := after[id].position)
            && EndsAs(rows, id, PlayerRequires(c), IsTeamHit(c), after[id].position)
  {
    PlayerPassesPlace(rows, year, id);
    PlayerEnds(rows, year, id);
  }

  /** The position that the one pass for the row's category gives it. */
  function PlayerPosition(rows: Rows, year: int, id: RowId): Option<int>
    requires id in rows
  {
    var i := PlayerPassOf(rows[id].category);
    if i.None? then rows[id].position else Placed(rows, PlayerPasses(year)[i.value], id)
  }

  lemma PlayerEnds(rows: Rows, year: int, id: RowId)
    requires id in rows && rows[id].year == year
    ensures EndsAs(rows, id, PlayerRequires(rows[id].category), IsTeamHit(rows[id].category),
                   PlayerPosition(rows, year, id))
  {
    if PlayerRequires(rows[id].category).Some? {
      PlayerRequiredPlaced(rows, year, id);
    } else if !IsTeamHit(rows[id].category) {
      PlayerRestMatches(rows, year, id);
    }
  }

  lemma PlayerRequiredPlaced(rows: Rows, year: int, id: RowId)
    requires id in rows && rows[id].year == year && PlayerRequires(rows[id].category).Some?
    ensures PlayerPassOf(rows[id].category).Some?
    ensures EndsAs(rows, id, PlayerRequires(rows[id].category), false,
                   Placed(rows, PlayerPasses(year)[PlayerPassOf(rows[id].category).value], id))
  {
    var c := rows[id].category;
    PlayerPassRequires(year, c);
    OnlyPlaces(rows, year, PlayerPasses(year)[PlayerPassOf(c).value].cats,
               PlayerRequires(c).value.0, PlayerRequires(c).value.1, id);
  }

  lemma PlayerPassRequires(year: int, c: Category)
    requires PlayerRequires(c).Some?
    ensures PlayerPassOf(c).Some?
    ensures var r := PlayerPasses(year)[PlayerPassOf(c).value];
            c in r.cats && r == Only(year, r.cats, PlayerRequires(c).value.0, PlayerRequires(c).value.1, None)
  {
  }

  lemma PlayerRestMatches(rows: Rows, year: int, id: RowId)
    requires id in rows && rows[id].year == year
    requires PlayerRequires(rows[id].category).None? && !IsTeamHit(rows[id].category)
    ensures PlayerPassOf(rows[id].category) == Some(5) && Matches(rows, id, PlayerPasses(year)[5])
  {
    PlayerSelects(year, 5, rows[id].category);
  }

  /** What a ratio requires on the per-server leaderboards, and, but for the kills, on those per game type. */
  function ServerRequires(c: Category): Option<(Category, real)> {
    match c
    case SpmRatio => Some((Time, 36000.0))
    case SprRatio => Some((Games, 100.0))
    case KdRatio => Some((Kills, 500.0))
    case _ => None
  }

  /** The per-server leaderboards of a year, over all servers. */
  lemma ServerPlaced(rows: Rows, year: int, id: RowId)
    requires id in rows && rows[id].year == year
    ensures var after, c := RankAll(rows, ServerPasses(year, None)), rows[id].category;
            && id in after && after[id] == rows[id].(position := after[id].position)
            && EndsAs(rows, id, ServerRequires(c), false, after[id].position)
  {
    ServerPassesPlace(rows, year, None, id);
    ServerEnds(rows, year, id);
  }

  lemma ServerEnds(rows: Rows, year: int, id: RowId)
    requires id in rows && rows[id].year == year
    ensures EndsAs(rows, id, ServerRequires(rows[id].category), false,
                   Placed(rows, ServerPassFor(year, None, rows[id].category), id))
  {
    var c := rows[id].category;
    if ServerRequires(c).Some? {
      OnlyPlaces(rows, year, [c], ServerRequires(c).value.0, ServerRequires(c).value.1, id);
    } else {
      assert Matches(rows, id, ServerPassFor(year, None, c));
    }
  }

  /** The leaderboards per game type: as per server, but every kill ratio is placed. */
  lemma GametypePlaced(rows: Rows, year: int, id: RowId)
    requires id in rows && rows[id].year == year
    ensures var after, c := RankAll(rows, GametypePasses(year)), rows[id].category;
            && id in after && after[id] == rows[id].(position := after[id].position)
            && EndsAs(rows, id, if c.KdRatio? then None else ServerRequires(c), false, after[id].position)
  {
    GametypePassesPlace(rows, year, id);
    var c := rows[id].category;
    if c.SpmRatio? || c.SprRatio? {
      OnlyPlaces(rows, year, [c], ServerRequires(c).value.0, ServerRequires(c).value.1, id);
    }
  }
}
