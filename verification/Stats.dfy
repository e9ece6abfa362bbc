/**
 The statistics tables: saving a player's figures with an upsert, and ranking a year's rows into positions.
 One table serves players overall, maps, game types or servers; `group` is the map, game type or server.
 */
module Stats {
  import opened Wrappers
  import opened Categories
  import FiniteSets
  import KeyedTables

  type RowId = int
  type ProfileId = int

  datatype Group = Everyone | Group(id: int)

  datatype Row = Row(
    year: int,
    category: Category,
    profile: ProfileId,
    group: Group,
    points: real,
    position: Option<int>)

  type Rows = map<RowId, Row>

  /** The columns of the table's unique constraint. */
  datatype Key = Key(year: int, category: Category, profile: ProfileId, group: Group)

  function KeyOf(row: Row): Key {
    Key(row.year, row.category, row.profile, row.group)
  }

  function PointsOf(row: Row): real {
    row.points
  }

  ghost predicate UniqueKeys(rows: Rows) {
    KeyedTables.Injective(rows, KeyOf)
  }

  /** The points the table holds, by key. */
  ghost function Points(rows: Rows): map<Key, real>
    requires UniqueKeys(rows)
  {
    KeyedTables.Index(rows, KeyOf, PointsOf)
  }

  /** The figures worth storing: those that are present and positive. */
  function Positive(items: map<Category, Option<real>>): map<Category, real> {
    map c | c in items && items[c].Some? && items[c].value > 0.0 :: items[c].value
  }

  /** The positive figures as keyed points. */
  ghost function Keyed(items: map<Category, Option<real>>, profile: ProfileId, year: int, group: Group)
    : map<Key, real>
  {
    map c | c in Positive(items) :: Key(year, c, profile, group) := Positive(items)[c]
  }

  // ---------------------------------------------------------------- ranking: the closed form

  datatype Ranking = Ranking(
    year: int,
    cats: seq<Category>,
    excluded: seq<Category>,
    qualify: Option<map<Category, real>>,
    groups: Option<set<Group>>)

  /** The category filter: a list to include, else a list to exclude, else everything. */
  predicate Selects(r: Ranking, c: Category) {
    if r.cats != [] then c in r.cats else c !in r.excluded
  }

  /** The rows by which a profile meets one requirement within a group. */
  function Meeting(rows: Rows, profile: ProfileId, group: Group, year: int, c: Category, least: real): set<RowId> {
    set id | id in rows && rows[id].profile == profile && rows[id].group == group && rows[id].year == year
             && rows[id].category == c && rows[id].points >= least
  }

  predicate Qualifies(rows: Rows, row: Row, r: Ranking) {
    r.qualify.Some? ==> forall c :: c in r.qualify.value ==>
      Meeting(rows, row.profile, row.group, r.year, c, r.qualify.value[c]) != {}
  }

  /** The rows that are to be numbered. */
  predicate Matches(rows: Rows, id: RowId, r: Ranking) {
    && id in rows && rows[id].year == r.year && Selects(r, rows[id].category)
    && (r.groups.Some? ==> rows[id].group in r.groups.value)
    && Qualifies(rows, rows[id], r)
  }

  /** More points first; among equal points the older row first. */
  predicate Before(rows: Rows, a: RowId, b: RowId)
    requires a in rows && b in rows
  {
    rows[a].points > rows[b].points || (rows[a].points == rows[b].points && a < b)
  }

  /** The rows numbered together: one category within one group. */
  function Partition(rows: Rows, r: Ranking, c: Category, group: Group): (ids: set<RowId>)
    ensures ids <= rows.Keys
  {
    set id | id in rows && Matches(rows, id, r) && rows[id].category == c && rows[id].group == group
  }

  function Ahead(rows: Rows, r: Ranking, id: RowId): (ids: set<RowId>)
    requires id in rows
    ensures ids <= Partition(rows, r, rows[id].category, rows[id].group)
  {
    set x | x in Partition(rows, r, rows[id].category, rows[id].group) && Before(rows, x, id)
  }

  /** ROW_NUMBER within the partition. */
  function RowNumber(rows: Rows, r: Ranking, id: RowId): int
    requires id in rows
  {
    1 + |Ahead(rows, r, id)|
  }

  /** The rows of a category that are numbered, in whatever group. */
  function MatchesIn(rows: Rows, r: Ranking, c: Category): set<RowId> {
    set id | id in rows && Matches(rows, id, r) && rows[id].category == c
  }

  /** A requirement is given and some row of the category meets it: old positions of the category are dropped. */
  predicate Clears(rows: Rows, r: Ranking, year: int, c: Category) {
    r.qualify.Some? && r.qualify.value != map[] && year == r.year && MatchesIn(rows, r, c) != {}
  }

  /** The position a row ends up with. */
  function Placed(rows: Rows, r: Ranking, id: RowId): Option<int>
    requires id in rows
  {
    if Matches(rows, id, r) then Some(RowNumber(rows, r, id))
    else if Clears(rows, r, rows[id].year, rows[id].category) then None
    else rows[id].position
  }

  /** The table after ranking. */
  function Ranked(rows: Rows, r: Ranking): Rows {
    map id | id in rows :: rows[id].(position := Placed(rows, r, id))
  }

  const CHUNK_SIZE := 1000

  class StatsManager {
    var rows: Rows
    var nextId: RowId

    ghost predicate Valid()
      reads this
    {
      UniqueKeys(rows) && forall id :: id in rows ==> id < nextId
    }

    constructor ()
      ensures Valid() && rows == map[]
    {
      rows, nextId := map[], 1;
    }

    /** Insert a row, or, when its key is taken, store its points in the existing row. */
    method Upsert(row: Row)
      requires Valid()
      modifies this
      ensures Valid()
      ensures Points(rows) == old(Points(rows))[KeyOf(row) := row.points]
      ensures OnlyPointsChanged(old(rows), rows)
    {
      var taken := set id | id in rows && KeyOf(rows[id]) == KeyOf(row);
      if taken != {} {
        var id := FiniteSets.Min(taken);
        KeyedTables.IndexStore(rows, rows[id := rows[id].(points := row.points)], id, rows[id].(points := row.points),
                               KeyOf, PointsOf);
        rows := rows[id := rows[id].(points := row.points)];
      } else {
        assert forall x :: x in rows ==> KeyOf(rows[x]) == KeyOf(row) ==> x in taken;
        KeyedTables.IndexStore(rows, rows[nextId := row.(position := None)], nextId, row.(position := None),
                               KeyOf, PointsOf);
        rows := rows[nextId := row.(position := None)];
        nextId := nextId + 1;
      }
    }

    /** Upsert the rows of a batch one after another. */
    method BulkCreate(batch: seq<Row>)
      requires Valid()
      modifies this
      ensures Valid()
      ensures Points(rows) == old(Points(rows)) + Stored(batch)
      ensures OnlyPointsChanged(old(rows), rows)
    {
      var i := 0;
      while i < |batch|
        invariant 0 <= i <= |batch|
        invariant Valid() && OnlyPointsChanged(old(rows), rows)
        invariant Points(rows) == old(Points(rows)) + Stored(batch[..i])
      {
        ghost var was := rows;
        Upsert(batch[i]);
        StoredNext(batch, i);
        KeyedTables.StoreAfter(old(Points(rows)), Stored(batch[..i]), KeyOf(batch[i]), batch[i].points);
        OnlyPointsChangedTwice(old(rows), was, rows);
        i := i + 1;
      }
      assert batch[..|batch|] == batch;
    }

    /** Store a profile's positive figures for a year and group. */
    method SaveStats(items: map<Category, Option<real>>, profile: ProfileId, year: int, group: Group)
      requires Valid()
      modifies this
      ensures Valid()
      ensures Points(rows) == old(Points(rows)) + Keyed(items, profile, year, group)
      ensures OnlyPointsChanged(old(rows), rows)
    {
      var batch := BatchOf(items, profile, year, group);
      BatchIsKeyed(batch, items, profile, year, group);
      if batch == [] {
        assert Keyed(items, profile, year, group) == map[];
        return;
      }
      BulkCreate(batch);
    }

    /** Number the matching rows of a year and write the numbers into their positions, category by category. */
    method Rank(r: Ranking)
      modifies this`rows
      ensures rows == Ranked(old(rows), r)
    {
      ghost var before := rows;
      var perCategory := PositionsPerCategory(rows, r);
      var todo := perCategory.Keys;
      ghost var done: set<Category> := {};
      NothingRanked(before, r);
      while todo != {}
        invariant forall c :: c in perCategory <==> c in done || c in todo
        invariant forall c :: c in todo ==> c !in done
        invariant rows == RankedIn(before, r, done)
        decreases |todo|
      {
        var c := FiniteSets.Pick(todo);
        assert ListsNumbers(perCategory[c], before, r, c);
        RankCategory(r, c, perCategory[c]);
        CategoryRanked(before, r, done, c);
        todo, done := todo - {c}, done + {c};
      }
      EverythingRanked(before, r, done);
    }

    /** The transaction for one category. */
    method RankCategory(r: Ranking, c: Category, positions: seq<(RowId, int)>)
      requires Functional(positions)
      modifies this`rows
      ensures rows == Assigned(ClearedIfQualified(old(rows), r, c), AsMap(positions))
    {
      // with requirements, every old position of the category goes first
      if r.qualify.Some? && r.qualify.value != map[] {
        rows := map id | id in rows ::
          if rows[id].year == r.year && rows[id].category == c && rows[id].position.Some?
          then rows[id].(position := None) else rows[id];
      }
      WritePositions(positions);
    }

    /** Write numbers into positions, a bounded number of rows at a time. */
    method WritePositions(positions: seq<(RowId, int)>)
      requires Functional(positions)
      modifies this`rows
      ensures rows == Assigned(old(rows), AsMap(positions))
    {
      var i := 0;
      AssignedNothing(rows);
      while i < |positions|
        invariant 0 <= i
        invariant rows == Assigned(old(rows), AsMap(Prefix(positions, i)))
        decreases |positions| - i
      {
        var chunk := positions[i..if i + CHUNK_SIZE < |positions| then i + CHUNK_SIZE else |positions|];
        var positionFor := AsMap(chunk);
        rows := map id | id in rows ::
          if id in positionFor then rows[id].(position := Some(positionFor[id])) else rows[id];
        NextChunk(positions, i, chunk);
        AssignedTwice(old(rows), AsMap(Prefix(positions, i)), positionFor);
        i := i + CHUNK_SIZE;
      }
    }
  }

  /** The table with the positions of one year's category dropped. */
  function Cleared(rows: Rows, year: int, c: Category): Rows {
    map id | id in rows ::
      if rows[id].year == year && rows[id].category == c && rows[id].position.Some?
      then rows[id].(position := None) else rows[id]
  }

  function ClearedIfQualified(rows: Rows, r: Ranking, c: Category): Rows {
    if r.qualify.Some? && r.qualify.value != map[] then Cleared(rows, r.year, c) else rows
  }

  /** The table with positions written from `numbers`. */
  function Assigned(rows: Rows, numbers: map<RowId, int>): Rows {
    map id | id in rows :: if id in numbers then rows[id].(position := Some(numbers[id])) else rows[id]
  }

  predicate Functional(positions: seq<(RowId, int)>) {
    forall p, q :: p in positions && q in positions && p.0 == q.0 ==> p.1 == q.1
  }

  /** A list of pairs as a dictionary. */
  function AsMap(positions: seq<(RowId, int)>): map<RowId, int>
    requires Functional(positions)
  {
    map p | p in positions :: p.0 := p.1
  }

  function Prefix(positions: seq<(RowId, int)>, i: nat): (p: seq<(RowId, int)>)
    ensures forall x :: x in p ==> x in positions
    ensures i >= |positions| ==> p == positions
  {
    if i < |positions| then positions[..i] else positions
  }

  lemma NextChunk(positions: seq<(RowId, int)>, i: nat, chunk: seq<(RowId, int)>)
    requires Functional(positions) && i < |positions|
    requires chunk == positions[i..if i + CHUNK_SIZE < |positions| then i + CHUNK_SIZE else |positions|]
    ensures Functional(chunk) && AsMap(Prefix(positions, i + CHUNK_SIZE)) == AsMap(Prefix(positions, i)) + AsMap(chunk)
  {
    assert Prefix(positions, i + CHUNK_SIZE) == Prefix(positions, i) + chunk;
    AsMapAppend(Prefix(positions, i), chunk);
  }

  lemma AssignedNothing(rows: Rows)
    ensures Assigned(rows, AsMap([])) == rows
  {
    assert AsMap([]) == map[];
    FiniteSets.MapsEqual(Assigned(rows, map[]), rows);
  }

  lemma AssignedTwice(rows: Rows, m: map<RowId, int>, n: map<RowId, int>)
    ensures Assigned(Assigned(rows, m), n) == Assigned(rows, m + n)
  {
    FiniteSets.MapsEqual(Assigned(Assigned(rows, m), n), Assigned(rows, m + n));
  }

  lemma AsMapAppend(a: seq<(RowId, int)>, b: seq<(RowId, int)>)
    requires Functional(a + b)
    ensures Functional(a) && Functional(b) && AsMap(a + b) == AsMap(a) + AsMap(b)
  {
    assert forall p :: p in a + b <==> p in a || p in b;
    FiniteSets.MapsEqual(AsMap(a + b), AsMap(a) + AsMap(b));
  }

  /** The numbers of a category's matching rows. */
  function Numbers(rows: Rows, r: Ranking, c: Category): map<RowId, int> {
    map id | id in MatchesIn(rows, r, c) :: RowNumber(rows, r, id)
  }

  /** The list is the category's numbers, in some order. */
  ghost predicate ListsNumbers(positions: seq<(RowId, int)>, rows: Rows, r: Ranking, c: Category) {
    Functional(positions) && AsMap(positions) == Numbers(rows, r, c)
  }

  /** The table with only some categories ranked so far. */
  ghost function RankedIn(rows: Rows, r: Ranking, done: set<Category>): Rows {
    map id | id in rows ::
      if rows[id].category in done then rows[id].(position := Placed(rows, r, id)) else rows[id]
  }

  lemma NothingRanked(rows: Rows, r: Ranking)
    ensures RankedIn(rows, r, {}) == rows
  {
    FiniteSets.MapsEqual(RankedIn(rows, r, {}), rows);
  }

  /** Clearing a category and then writing its numbers ranks that category and no other. */
  lemma CategoryRanked(rows: Rows, r: Ranking, done: set<Category>, c: Category)
    requires MatchesIn(rows, r, c) != {} && c !in done
    ensures Assigned(ClearedIfQualified(RankedIn(rows, r, done), r, c), Numbers(rows, r, c))
         == RankedIn(rows, r, done + {c})
  {
    var after := Assigned(ClearedIfQualified(RankedIn(rows, r, done), r, c), Numbers(rows, r, c));
    forall id | id in rows ensures after[id] == RankedIn(rows, r, done + {c})[id] {
      RowRanked(rows, r, done, c, id);
    }
    FiniteSets.MapsEqual(after, RankedIn(rows, r, done + {c}));
  }

  lemma RowRanked(rows: Rows, r: Ranking, done: set<Category>, c: Category, id: RowId)
    requires id in rows && MatchesIn(rows, r, c) != {} && c !in done
    ensures Assigned(ClearedIfQualified(RankedIn(rows, r, done), r, c), Numbers(rows, r, c))[id]
         == RankedIn(rows, r, done + {c})[id]
  {
    assert Matches(rows, id, r) && rows[id].category == c <==> id in MatchesIn(rows, r, c);
  }

  /** Categories without a matching row are left as they are. */
  lemma EverythingRanked(rows: Rows, r: Ranking, done: set<Category>)
    requires forall c :: c in done <==> MatchesIn(rows, r, c) != {}
    ensures RankedIn(rows, r, done) == Ranked(rows, r)
  {
    forall id | id in rows ensures RankedIn(rows, r, done)[id] == Ranked(rows, r)[id] {
      assert Matches(rows, id, r) ==> id in MatchesIn(rows, r, rows[id].category);
    }
    FiniteSets.MapsEqual(RankedIn(rows, r, done), Ranked(rows, r));
  }

  /** The window query, its rows collected into one list for each category that occurs. */
  method PositionsPerCategory(rows: Rows, r: Ranking) returns (perCategory: map<Category, seq<(RowId, int)>>)
    ensures forall c :: c in perCategory <==> MatchesIn(rows, r, c) != {}
    ensures forall c :: c in perCategory ==> ListsNumbers(perCategory[c], rows, r, c)
  {
    perCategory := map[];
    var todo := set id | id in rows && Matches(rows, id, r);
    ghost var matching := todo;
    while todo != {}
      invariant todo <= matching
      invariant forall c :: c in perCategory ==> Collected(perCategory[c], rows, r, c, todo)
      invariant forall id :: id in matching - todo ==> rows[id].category in perCategory
      decreases |todo|
    {
      var id := FiniteSets.Pick(todo);
      var c := rows[id].category;
      var list := if c in perCategory then perCategory[c] else [];
      CollectedMore(list, rows, r, c, todo, id);
      forall d | d in perCategory && d != c ensures Collected(perCategory[d], rows, r, d, todo - {id}) {
        CollectedOther(perCategory[d], rows, r, d, todo, id);
      }
      perCategory := perCategory[c := list + [(id, RowNumber(rows, r, id))]];
      todo := todo - {id};
    }
    forall c | MatchesIn(rows, r, c) != {} ensures c in perCategory {
      var id := FiniteSets.Member(MatchesIn(rows, r, c));
      assert id in matching - todo;
    }
    forall c | c in perCategory
      ensures MatchesIn(rows, r, c) != {}
      ensures ListsNumbers(perCategory[c], rows, r, c)
    {
      CollectedAll(perCategory[c], rows, r, c);
    }
  }

  /** The list holds the numbers of the category's matching rows, except those still to come. */
  ghost predicate Collected(list: seq<(RowId, int)>, rows: Rows, r: Ranking, c: Category, todo: set<RowId>) {
    && Functional(list) && list != []
    && AsMap(list) == map id | id in MatchesIn(rows, r, c) && id !in todo :: RowNumber(rows, r, id)
  }

  lemma CollectedMore(list: seq<(RowId, int)>, rows: Rows, r: Ranking, c: Category, todo: set<RowId>, id: RowId)
    requires list == [] || Collected(list, rows, r, c, todo)
    requires list == [] ==> forall x :: x in MatchesIn(rows, r, c) ==> x in todo
    requires id in todo && id in MatchesIn(rows, r, c)
    ensures Collected(list + [(id, RowNumber(rows, r, id))], rows, r, c, todo - {id})
  {
    var number := RowNumber(rows, r, id);
    var was := map x | x in MatchesIn(rows, r, c) && x !in todo :: RowNumber(rows, r, x);
    if list == [] { assert AsMap(list) == map[] == was; }
    AsMapOneMore(list, id, number);
    FiniteSets.MapsEqual(was[id := number],
                         map x | x in MatchesIn(rows, r, c) && x !in todo - {id} :: RowNumber(rows, r, x));
  }

  lemma AsMapOneMore(list: seq<(RowId, int)>, id: RowId, number: int)
    requires Functional(list) && id !in AsMap(list)
    ensures Functional(list + [(id, number)])
    ensures AsMap(list + [(id, number)]) == AsMap(list)[id := number]
  {
    forall p | p in list ensures p.0 != id {
      assert p.0 in AsMap(list);
    }
    AsMapAppend(list, [(id, number)]);
    FiniteSets.MapsEqual(AsMap(list + [(id, number)]), AsMap(list)[id := number]);
  }

  lemma CollectedOther(list: seq<(RowId, int)>, rows: Rows, r: Ranking, c: Category, todo: set<RowId>, id: RowId)
    requires Collected(list, rows, r, c, todo) && id !in MatchesIn(rows, r, c)
    ensures Collected(list, rows, r, c, todo - {id})
  {
    FiniteSets.MapsEqual(AsMap(list), map x | x in MatchesIn(rows, r, c) && x !in todo - {id} :: RowNumber(rows, r, x));
  }

  lemma CollectedAll(list: seq<(RowId, int)>, rows: Rows, r: Ranking, c: Category)
    requires Collected(list, rows, r, c, {})
    ensures AsMap(list) == Numbers(rows, r, c) && MatchesIn(rows, r, c) != {}
  {
    FiniteSets.MapsEqual(AsMap(list), Numbers(rows, r, c));
    assert list[0] in list;
    assert list[0].0 in AsMap(list);
  }

  /** The rows to store: one for each positive figure. */
  method BatchOf(items: map<Category, Option<real>>, profile: ProfileId, year: int, group: Group)
    returns (batch: seq<Row>)
    ensures IsBatchOf(batch, items, profile, year, group)
    ensures forall c :: c in Positive(items) ==> exists i :: 0 <= i < |batch| && batch[i].category == c
  {
    batch := [];
    var todo := items.Keys;
    while todo != {}
      invariant todo <= items.Keys
      invariant IsBatchOf(batch, items, profile, year, group)
      invariant forall c :: c in Positive(items) && c !in todo ==>
        exists i :: 0 <= i < |batch| && batch[i].category == c
      decreases |todo|
    {
      var c :| c in todo;
      todo := todo - {c};
      // only positive figures are worth a row
      if items[c].Some? && items[c].value > 0.0 {
        ghost var shorter := batch;
        batch := batch + [Row(year, c, profile, group, items[c].value, None)];
        assert batch[|shorter|].category == c;
        assert forall i :: 0 <= i < |shorter| ==> batch[i] == shorter[i];
      }
    }
  }

  /** What inserting the rows one after another stores, the last one for a key winning. */
  ghost function Stored(batch: seq<Row>): map<Key, real> {
    if batch == [] then map[]
    else Stored(batch[..|batch| - 1])[KeyOf(batch[|batch| - 1]) := batch[|batch| - 1].points]
  }

  lemma StoredNext(batch: seq<Row>, i: nat)
    requires i < |batch|
    ensures Stored(batch[..i + 1]) == Stored(batch[..i])[KeyOf(batch[i]) := batch[i].points]
  {
    assert batch[..i + 1][..i] == batch[..i];
  }

  lemma OnlyPointsChangedTwice(a: Rows, b: Rows, c: Rows)
    requires OnlyPointsChanged(a, b) && OnlyPointsChanged(b, c)
    ensures OnlyPointsChanged(a, c)
  {
  }

  ghost predicate IsBatchOf(batch: seq<Row>, items: map<Category, Option<real>>, profile: ProfileId, year: int,
                            group: Group)
  {
    forall i :: 0 <= i < |batch| ==>
      batch[i].category in Positive(items)
      && batch[i] == Row(year, batch[i].category, profile, group, Positive(items)[batch[i].category], None)
  }

  lemma {:induction false} StoredOfBatch(batch: seq<Row>, items: map<Category, Option<real>>, profile: ProfileId,
                                         year: int, group: Group)
    requires IsBatchOf(batch, items, profile, year, group)
    ensures forall k :: k in Stored(batch) ==> k in Keyed(items, profile, year, group)
                                               && Stored(batch)[k] == Keyed(items, profile, year, group)[k]
    ensures forall i :: 0 <= i < |batch| ==> KeyOf(batch[i]) in Stored(batch)
  {
    if batch != [] {
      var n := |batch| - 1;
      StoredOfBatch(batch[..n], items, profile, year, group);
      assert KeyOf(batch[n]) in Keyed(items, profile, year, group);
      forall i | 0 <= i < |batch| ensures KeyOf(batch[i]) in Stored(batch) {
        if i < n { assert batch[..n][i] == batch[i]; }
      }
    }
  }

  lemma BatchIsKeyed(batch: seq<Row>, items: map<Category, Option<real>>, profile: ProfileId, year: int, group: Group)
    requires IsBatchOf(batch, items, profile, year, group)
    requires forall c :: c in Positive(items) ==> exists i :: 0 <= i < |batch| && batch[i].category == c
    ensures Stored(batch) == Keyed(items, profile, year, group)
  {
    StoredOfBatch(batch, items, profile, year, group);
    var keyed := Keyed(items, profile, year, group);
    forall k | k in keyed ensures k in Stored(batch) {
      var i :| 0 <= i < |batch| && batch[i].category == k.category;
      assert KeyOf(batch[i]) == k;
    }
    FiniteSets.MapsEqual(Stored(batch), keyed);
  }

  /** Existing rows keep their id, key and position; new rows have no position. */
  ghost predicate OnlyPointsChanged(before: Rows, after: Rows) {
    && (forall id :: id in before ==> id in after && after[id] == before[id].(points := after[id].points))
    && (forall id :: id in after && id !in before ==> after[id].position == None)
  }
}
