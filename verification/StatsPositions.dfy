/**
 What the task that merges statistics does to the leaderboards: the main servers it affects end correctly ranked,
 and servers it does not affect lose positions in exactly the categories that require a qualification.
 */
module StatsPositions {
  import opened Wrappers
  import opened Categories
  import opened MergeRuns
  import opened MergedStats
  import opened Stats
  import Leaderboards
  import FiniteSets
  import KeyedTables

  // ---------------------------------------------------------------- rankings of some groups read only those groups

  /** The tables hold the same rows of these groups, apart from positions. */
  ghost predicate SameWithin(a: Rows, b: Rows, groups: set<Group>) {
    && (forall id :: id in a && a[id].group in groups ==> id in b)
    && (forall id :: id in b && b[id].group in groups ==> id in a)
    && (forall id :: id in a && id in b ==> b[id] == a[id].(position := b[id].position))
  }

  lemma MeetingWithin(a: Rows, b: Rows, groups: set<Group>, row: Row, year: int, c: Category, least: real)
    requires SameWithin(a, b, groups) && row.group in groups
    ensures Meeting(a, row.profile, row.group, year, c, least) == Meeting(b, row.profile, row.group, year, c, least)
  {
    forall id ensures id in Meeting(a, row.profile, row.group, year, c, least)
                 <==> id in Meeting(b, row.profile, row.group, year, c, least)
    {
      if id in a && id in b { assert b[id] == a[id].(position := b[id].position); }
    }
  }

  lemma MatchesWithin(a: Rows, b: Rows, groups: set<Group>, r: Ranking, id: RowId)
    requires SameWithin(a, b, groups) && r.groups == Some(groups)
    ensures Matches(a, id, r) == Matches(b, id, r)
  {
    if id in a && id in b && a[id].group in groups {
      assert b[id] == a[id].(position := b[id].position);
      if r.qualify.Some? {
        forall c | c in r.qualify.value
          ensures Meeting(a, a[id].profile, a[id].group, r.year, c, r.qualify.value[c])
               == Meeting(b, a[id].profile, a[id].group, r.year, c, r.qualify.value[c])
        {
          MeetingWithin(a, b, groups, a[id], r.year, c, r.qualify.value[c]);
        }
      }
    }
  }

  /** Where a row is placed in one table, it is placed in the other. */
  lemma PlacedWithin(a: Rows, b: Rows, groups: set<Group>, r: Ranking, id: RowId)
    requires SameWithin(a, b, groups) && r.groups == Some(groups) && id in a && id in b
    ensures MatchesIn(a, r, a[id].category) == MatchesIn(b, r, a[id].category)
    ensures Matches(a, id, r) ==> RowNumber(a, r, id) == RowNumber(b, r, id)
  {
    assert b[id] == a[id].(position := b[id].position);
    forall x ensures Matches(a, x, r) == Matches(b, x, r) {
      MatchesWithin(a, b, groups, r, x);
    }
    forall x ensures x in MatchesIn(a, r, a[id].category) <==> x in MatchesIn(b, r, a[id].category) {
      if x in a && x in b { assert b[x] == a[x].(position := b[x].position); }
    }
    if Matches(a, id, r) {
      forall x ensures x in Ahead(a, r, id) <==> x in Ahead(b, r, id) {
        if x in a && x in b { assert b[x] == a[x].(position := b[x].position); }
      }
      assert Ahead(a, r, id) == Ahead(b, r, id);
    }
  }

  lemma PlacedFrom(a: Rows, b: Rows, groups: set<Group>, r: Ranking, id: RowId)
    requires SameWithin(a, b, groups) && r.groups == Some(groups) && id in a && id in b
    ensures Placed(a, r, id) ==
            if Matches(b, id, r) then Some(RowNumber(b, r, id))
            else if Clears(a, r, a[id].year, a[id].category) then None
            else a[id].position
  {
    MatchesWithin(a, b, groups, r, id);
    PlacedWithin(a, b, groups, r, id);
  }

  // ---------------------------------------------------------------- the task

  /** The categories that require a qualification, with what they require and how much of it. */
  function Required(c: Category): Option<(Category, real)> {
    match c
    case SpmRatio => Some((Time, MIN_TIME))
    case SprRatio => Some((Games, MIN_GAMES))
    case KdRatio => Some((Kills, MIN_KILLS))
    case _ => None
  }

  /** The points once the affected profile years are refreshed. */
  ghost function RefreshedPoints(w: World): map<Key, real> {
    w.table + RefreshAll(w, Affected(w))
  }

  /** The player who holds this key has, on the same server, as much as the category requires. */
  ghost predicate Qualified(points: map<Key, real>, k: Key) {
    Required(k.category).Some?
    && var (required, least) := Required(k.category).value;
       var needed := Key(k.year, required, k.profile, k.group);
       needed in points && points[needed] >= least
  }

  /** Of the year and category, on a server affected in that year, and qualified. */
  ghost predicate QualifiedOnAffected(w: World, year: int, c: Category, k: Key) {
    && k in RefreshedPoints(w) && k.year == year && k.category == c
    && k.group in GroupsOf(Affected(w), year) && Qualified(RefreshedPoints(w), k)
  }

  /** The task clears a category of a year when someone qualifies for it on a server affected in that year. */
  ghost predicate TaskClears(w: World, year: int, c: Category) {
    exists k :: QualifiedOnAffected(w, year, c, k)
  }

  /** The rows hold the refreshed points. */
  ghost predicate HoldsRefreshed(w: World, refreshed: Rows) {
    UniqueKeys(refreshed) && Points(refreshed) == RefreshedPoints(w)
  }

  lemma MatchQualifies(w: World, refreshed: Rows, year: int, c: Category, id: RowId)
    requires HoldsRefreshed(w, refreshed) && Required(c).Some?
    requires id in MatchesIn(refreshed, PassFor(Affected(w), year, c), c)
    ensures QualifiedOnAffected(w, year, c, KeyOf(refreshed[id]))
  {
    var (required, least) := Required(c).value;
    PassRequires(Affected(w), year, c);
    KeyedTables.IndexAt(refreshed, KeyOf, PointsOf, id);
    var x := MeetingOfMatch(refreshed, PassFor(Affected(w), year, c), required, least, id);
    KeyedTables.IndexAt(refreshed, KeyOf, PointsOf, x);
  }

  lemma MeetingOfMatch(rows: Rows, r: Ranking, required: Category, least: real, id: RowId) returns (x: RowId)
    requires r.qualify == Some(map[required := least]) && Matches(rows, id, r)
    ensures x in rows && rows[x].points >= least && KeyOf(rows[x]) == KeyOf(rows[id]).(category := required)
  {
    assert required in r.qualify.value;
    x := FiniteSets.Member(Meeting(rows, rows[id].profile, rows[id].group, r.year, required, least));
  }

  lemma QualifierMatches(w: World, refreshed: Rows, year: int, c: Category, k: Key)
    requires HoldsRefreshed(w, refreshed) && Required(c).Some? && QualifiedOnAffected(w, year, c, k)
    ensures MatchesIn(refreshed, PassFor(Affected(w), year, c), c) != {}
  {
    var (required, least) := Required(c).value;
    var id := KeyedTables.IndexFrom(refreshed, KeyOf, PointsOf, k);
    var x := KeyedTables.IndexFrom(refreshed, KeyOf, PointsOf, Key(year, required, k.profile, k.group));
    PassRequires(Affected(w), year, c);
    MatchesByMeeting(refreshed, PassFor(Affected(w), year, c), GroupsOf(Affected(w), year), required, least, id, x);
    assert id in MatchesIn(refreshed, PassFor(Affected(w), year, c), c);
  }

  lemma PassRequires(affected: set<PlayerYear>, year: int, c: Category)
    requires Required(c).Some?
    ensures var r := PassFor(affected, year, c);
            && r.year == year && Selects(r, c) && r.groups == Some(GroupsOf(affected, year))
            && r.qualify == Some(map[Required(c).value.0 := Required(c).value.1])
  {
  }

  lemma MatchesByMeeting(rows: Rows, r: Ranking, groups: set<Group>, required: Category, least: real, id: RowId,
                         x: RowId)
    requires id in rows && rows[id].year == r.year && Selects(r, rows[id].category)
    requires r.groups == Some(groups) && rows[id].group in groups && r.qualify == Some(map[required := least])
    requires x in rows && rows[x].points >= least
    requires KeyOf(rows[x]) == KeyOf(rows[id]).(category := required)
    ensures Matches(rows, id, r)
  {
    assert x in Meeting(rows, rows[id].profile, rows[id].group, r.year, required, least);
  }

  /** The pass over the refreshed rows clears exactly the categories that the world before says. */
  lemma ClearsIff(w: World, refreshed: Rows, year: int, c: Category)
    requires HoldsRefreshed(w, refreshed)
    ensures Clears(refreshed, PassFor(Affected(w), year, c), year, c) <==> TaskClears(w, year, c)
  {
    var r := PassFor(Affected(w), year, c);
    if Required(c).Some? {
      assert Required(c).value.0 in r.qualify.value;
      if MatchesIn(refreshed, r, c) != {} {
        var id := FiniteSets.Member(MatchesIn(refreshed, r, c));
        MatchQualifies(w, refreshed, year, c, id);
      }
      if TaskClears(w, year, c) {
        var k :| QualifiedOnAffected(w, year, c, k);
        QualifierMatches(w, refreshed, year, c, k);
      }
    }
  }

  /** The position a row had before the task; rows the task adds had none. */
  function OldPosition(before: Rows, id: RowId): Option<int> {
    if id in before then before[id].position else None
  }

  /** The main servers are unmerged, so the task deletes none of their rows. */
  lemma AffectedNotPending(w: World, t: PlayerYear)
    requires Forest(w.db) && t in Affected(w)
    ensures t.server !in Pending(w.db)
  {
  }

  lemma KeptWithin(w: World, refreshed: Rows, year: int)
    requires Forest(w.db)
    ensures var affected := Affected(w);
            SameWithin(refreshed, Finished(w, refreshed), GroupsOf(affected, year))
  {
    var affected := Affected(w);
    var after := Finished(w, refreshed);
    forall id | id in refreshed && refreshed[id].group in GroupsOf(affected, year) ensures id in after {
      var t :| t in affected && t.year == year && Group(t.server) == refreshed[id].group;
      AffectedNotPending(w, t);
    }
  }

  /** The task's table, from the rows once they are refreshed. */
  ghost function Finished(w: World, refreshed: Rows): Rows {
    Kept(Reranked(refreshed, Affected(w), YearsOf(Affected(w))), Pending(w.db))
  }

  lemma FinishedAt(w: World, refreshed: Rows, id: RowId)
    ensures id in Finished(w, refreshed) <==> id in refreshed && !OnServers(Pending(w.db), KeyOf(refreshed[id]))
    ensures id in Finished(w, refreshed) ==>
      Finished(w, refreshed)[id] ==
        if refreshed[id].year !in YearsOf(Affected(w)) then refreshed[id]
        else refreshed[id].(position :=
          Placed(refreshed, PassFor(Affected(w), refreshed[id].year, refreshed[id].category), id))
  {
  }

  lemma PlacedInFinished(w: World, refreshed: Rows, id: RowId)
    requires Forest(w.db) && id in Finished(w, refreshed) && HoldsRefreshed(w, refreshed)
    requires refreshed[id].year in YearsOf(Affected(w))
    ensures Placed(refreshed, PassFor(Affected(w), refreshed[id].year, refreshed[id].category), id)
         == PositionByTask(w, Finished(w, refreshed), id, refreshed[id].position)
  {
    var year, c := refreshed[id].year, refreshed[id].category;
    FinishedAt(w, refreshed, id);
    KeptWithin(w, refreshed, year);
    PassGroups(Affected(w), year, c);
    PlacedFrom(refreshed, Finished(w, refreshed), GroupsOf(Affected(w), year), PassFor(Affected(w), year, c), id);
    ClearsIff(w, refreshed, year, c);
  }

  lemma PassGroups(affected: set<PlayerYear>, year: int, c: Category)
    ensures PassFor(affected, year, c).groups == Some(GroupsOf(affected, year))
  {
  }

  /**
   The position of a row after the task, given the one it had: in an affected year the rows of affected servers that
   match are numbered; the others of a category that the task clears lose their position; the rest keep theirs.
   */
  ghost function PositionByTask(w: World, after: Rows, id: RowId, earlier: Option<int>): Option<int>
    requires id in after
  {
    var year, c := after[id].year, after[id].category;
    var r := PassFor(Affected(w), year, c);
    if year !in YearsOf(Affected(w)) then earlier
    else if Matches(after, id, r) then Some(RowNumber(after, r, id))
    else if TaskClears(w, year, c) then None
    else earlier
  }

  /** Every row has its position by the task. */
  lemma PositionAfterTask(w: World, before: Rows, after: Rows, id: RowId)
    requires Forest(w.db) && RowsMerged(w, before, after) && id in after
    ensures after[id].position == PositionByTask(w, after, id, OldPosition(before, id))
  {
    var refreshed: Rows :| RefreshedRows(w, before, refreshed) && after == Finished(w, refreshed);
    FinishedAt(w, refreshed, id);
    OldPositionKept(before, refreshed, id);
    if refreshed[id].year in YearsOf(Affected(w)) {
      PlacedInFinished(w, refreshed, id);
    }
  }

  lemma OldPositionKept(before: Rows, refreshed: Rows, id: RowId)
    requires OnlyPointsChanged(before, refreshed) && id in refreshed
    ensures refreshed[id].position == OldPosition(before, id)
  {
    if id in before {
      assert refreshed[id] == before[id].(points := refreshed[id].points);
    }
  }

  /** On each affected server and category, exactly the qualified rows of the year end numbered 1..n in order. */
  lemma AffectedEndRanked(w: World, before: Rows, after: Rows, t: PlayerYear, c: Category)
    requires Forest(w.db) && RowsMerged(w, before, after) && t in Affected(w)
    ensures var r := PassFor(Affected(w), t.year, c);
            var p := Partition(after, r, c, Group(t.server));
            && (forall id :: id in p ==> after[id].position == Some(RowNumber(after, r, id)))
            && (set id | id in p :: RowNumber(after, r, id)) == FiniteSets.Upto(|p|)
            && (forall a, b :: a in p && b in p ==>
              (after[a].points > after[b].points || (after[a].points == after[b].points && a < b)
               <==> after[a].position.value < after[b].position.value))
  {
    var r := PassFor(Affected(w), t.year, c);
    Leaderboards.PartitionNumbered(after, r, c, Group(t.server));
    forall id | id in Partition(after, r, c, Group(t.server))
      ensures after[id].position == Some(RowNumber(after, r, id))
    {
      AffectedNumbered(w, before, after, t, id);
    }
  }

  lemma AffectedNumbered(w: World, before: Rows, after: Rows, t: PlayerYear, id: RowId)
    requires Forest(w.db) && RowsMerged(w, before, after) && t in Affected(w)
    requires id in after && Matches(after, id, PassFor(Affected(w), t.year, after[id].category))
    ensures after[id].position == Some(RowNumber(after, PassFor(Affected(w), t.year, after[id].category), id))
  {
    PositionAfterTask(w, before, after, id);
    MatchedPosition(w, after, t, id, OldPosition(before, id));
  }

  lemma MatchedPosition(w: World, after: Rows, t: PlayerYear, id: RowId, earlier: Option<int>)
    requires t in Affected(w) && id in after && Matches(after, id, PassFor(Affected(w), t.year, after[id].category))
    ensures PositionByTask(w, after, id, earlier)
         == Some(RowNumber(after, PassFor(Affected(w), t.year, after[id].category), id))
  {
    assert t.year in YearsOf(Affected(w)) && PassFor(Affected(w), t.year, after[id].category).year == t.year;
  }

  /**
   A row of a server that the task does not affect that year survives unless its server is pending; it changes
   only in its position, and that only by losing it, if and only if somebody qualifies for its category on a server
   that the task does affect that year, as the points before the task and the figures it recomputes tell.
   */
  lemma UnaffectedLosesPositionIff(w: World, before: Rows, after: Rows, id: RowId)
    requires Forest(w.db) && UniqueKeys(before) && w.table == Points(before) && RowsMerged(w, before, after)
    requires id in before && before[id].group !in GroupsOf(Affected(w), before[id].year)
    ensures id in after <==> !OnServers(Pending(w.db), KeyOf(before[id]))
    ensures id in after ==>
      var loses := TaskClears(w, before[id].year, before[id].category);
      && after[id] == before[id].(position := if loses then None else before[id].position)
      && (after[id] != before[id] <==> loses && before[id].position.Some?)
  {
    var refreshed: Rows :| RefreshedRows(w, before, refreshed) && after == Finished(w, refreshed);
    PointsKept(w, before, refreshed, id);
    FinishedAt(w, refreshed, id);
    if id in after {
      UnaffectedPosition(w, before, after, id);
    }
  }

  lemma UnaffectedPosition(w: World, before: Rows, after: Rows, id: RowId)
    requires Forest(w.db) && RowsMerged(w, before, after)
    requires id in before && id in after && after[id].group !in GroupsOf(Affected(w), after[id].year)
    ensures after[id].position
         == if TaskClears(w, after[id].year, after[id].category) then None else before[id].position
  {
    PositionAfterTask(w, before, after, id);
    UnmatchedPosition(w, after, id, before[id].position);
  }

  lemma UnmatchedPosition(w: World, after: Rows, id: RowId, earlier: Option<int>)
    requires id in after && after[id].group !in GroupsOf(Affected(w), after[id].year)
    ensures PositionByTask(w, after, id, earlier)
         == if TaskClears(w, after[id].year, after[id].category) then None else earlier
  {
    PassGroups(Affected(w), after[id].year, after[id].category);
    ClearsInAffectedYears(w, after[id].year, after[id].category);
  }

  lemma ClearsInAffectedYears(w: World, year: int, c: Category)
    ensures TaskClears(w, year, c) ==> year in YearsOf(Affected(w))
  {
  }

  lemma PointsKept(w: World, before: Rows, refreshed: Rows, id: RowId)
    requires UniqueKeys(before) && w.table == Points(before) && RefreshedRows(w, before, refreshed)
    requires id in before && before[id].group !in GroupsOf(Affected(w), before[id].year)
    ensures id in refreshed && refreshed[id] == before[id]
  {
    var k := KeyOf(before[id]);
    KeyedTables.IndexAt(before, KeyOf, PointsOf, id);
    KeyedTables.IndexAt(refreshed, KeyOf, PointsOf, id);
    RefreshAllAt(w, Affected(w), k);
    assert YearOf(k).Some? && YearOf(k).value in Affected(w) ==>
      Group(YearOf(k).value.server) in GroupsOf(Affected(w), YearOf(k).value.year);
  }
}
