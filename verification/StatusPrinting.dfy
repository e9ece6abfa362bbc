/**
 A server record as entries with keys and values, and the proof that expanding the pairs they are printed as gives the
 record back, its players sorted by number.
 */
module StatusPrinting {
  import opened Wrappers
  import opened StatusQuery
  import Text

  // ---------------------------------------------------------------- records as entries

  datatype Entry =
    | Field(key: string, value: string)
    | ObjectiveEntry(name: string, status: string)
    | PlayerEntry(id: string, param: string, setting: string)

  function KeyText(e: Entry): string {
    match e
    case Field(key, _) => key
    case ObjectiveEntry(name, _) => "obj_" + name
    case PlayerEntry(id, param, _) => param + "_" + id
  }

  function ValueText(e: Entry): string {
    match e
    case Field(_, value) => value
    case ObjectiveEntry(_, status) => status
    case PlayerEntry(_, _, setting) => setting
  }

  predicate Plain(s: string) {
    '\\' !in s && '\n' !in s
  }

  /** The entry's key reads back as what it is: a player parameter, an objective, or neither. */
  ghost predicate Fits(e: Entry) {
    && Plain(KeyText(e)) && Plain(ValueText(e))
    && match e
       case Field(key, _) =>
         ObjectiveName(key).None? && PlayerParam(key).None? && key != "players" && key != "objectives"
       case ObjectiveEntry(name, _) => name != ""
       case PlayerEntry(id, param, _) =>
         id != "" && Text.AllDigits(id) && param != "" && param != "id" && !("obj_" <= KeyText(e))
  }

  ghost predicate AllFit(es: seq<Entry>) {
    forall e :: e in es ==> Fits(e)
  }

  lemma ObjectiveNameBack(name: string)
    requires name != "" && '\n' !in name
    ensures ObjectiveName("obj_" + name) == Some(name)
  {
    assert ("obj_" + name)[4..] == name;
  }

  lemma {:induction false} TrailingDigitsOf(p: string, id: string)
    requires Text.AllDigits(id) && (p == "" || !Text.IsDigit(p[|p| - 1]))
    ensures TrailingDigits(p + id) == |id|
  {
    if id == "" {
      assert p + id == p;
    } else {
      TrailingDigitsOf(p, id[..|id| - 1]);
      assert (p + id)[..|p + id| - 1] == p + id[..|id| - 1];
    }
  }

  lemma PlayerParamBack(param: string, id: string)
    requires id != "" && Text.AllDigits(id) && param != "" && '\n' !in param
    ensures PlayerParam(param + "_" + id) == Some((param, id))
  {
    TrailingDigitsOf(param + "_", id);
    AroundMark(param, id);
    ParamBeforeMark(param, id);
  }

  lemma ParamBeforeMark(param: string, id: string)
    requires id != "" && param != "" && '\n' !in param
    ensures ParamBefore(param + "_" + id, |id|) == Some((param, id))
  {
    AroundMark(param, id);
  }

  lemma AroundMark(a: string, b: string)
    requires b != ""
    ensures var s := a + "_" + b;
            |s| == |a| + 1 + |b| && s[..|a|] == a && s[|a|] == '_' && s[|a| + 1..] == b && s[|s| - 1] == b[|b| - 1]
  {
  }

  // ---------------------------------------------------------------- what the expansion builds

  function PairsOf(es: seq<Entry>): seq<Pair> {
    if es == [] then [] else PairsOf(es[..|es| - 1]) + [(KeyText(es[|es| - 1]), ValueText(es[|es| - 1]))]
  }

  function FieldsOf(es: seq<Entry>): map<string, string> {
    if es == [] then map[]
    else
      var e, rest := es[|es| - 1], FieldsOf(es[..|es| - 1]);
      if e.Field? then rest[e.key := e.value] else rest
  }

  function ObjectivesOf(es: seq<Entry>): seq<Objective> {
    if es == [] then []
    else
      var e, rest := es[|es| - 1], ObjectivesOf(es[..|es| - 1]);
      if e.ObjectiveEntry? then rest + [Objective(e.name, e.status)] else rest
  }

  function PlayersOf(es: seq<Entry>): map<string, Player> {
    if es == [] then map[]
    else
      var e, rest := es[|es| - 1], PlayersOf(es[..|es| - 1]);
      if e.PlayerEntry?
      then Updated(rest, e.id, e.param, e.setting)
      else rest
  }

  /** The list holds each player of the map once. */
  ghost predicate Represents(list: seq<(string, Player)>, players: map<string, Player>) {
    if list == [] then players == map[]
    else
      && list[0].0 in players && players[list[0].0] == list[0].1
      && Represents(list[1..], players - {list[0].0})
  }

  /** The players once a parameter of one of them is set. */
  function Updated(players: map<string, Player>, id: string, param: string, value: string): map<string, Player> {
    players[id := (if id in players then players[id] else map["id" := id])[param := value]]
  }

  lemma {:induction false} SetParam(list: seq<(string, Player)>, players: map<string, Player>, id: string,
                                    param: string, value: string)
    requires Represents(list, players)
    ensures Represents(WithPlayerParam(list, id, param, value), Updated(players, id, param, value))
  {
    var after := Updated(players, id, param, value);
    if list == [] {
      assert after - {id} == map[];
    } else if list[0].0 == id {
      assert after - {id} == players - {id};
    } else {
      SetParam(list[1..], players - {list[0].0}, id, param, value);
      assert after - {list[0].0} == Updated(players - {list[0].0}, id, param, value);
    }
  }

  lemma {:induction false} AbsorbEntries(es: seq<Entry>)
    requires AllFit(es)
    ensures var acc := AbsorbAll(PairsOf(es));
            && acc.Partial? && !acc.playersReplaced && acc.fields == FieldsOf(es)
            && acc.objectives == Listed(ObjectivesOf(es)) && Represents(acc.players, PlayersOf(es))
  {
    if es != [] {
      var init, e := es[..|es| - 1], es[|es| - 1];
      AbsorbEntries(init);
      assert e in es && Fits(e);
      assert PairsOf(es)[..|PairsOf(es)| - 1] == PairsOf(init);
      assert AbsorbAll(PairsOf(es)) == Absorb(AbsorbAll(PairsOf(init)), (KeyText(e), ValueText(e)));
      match e
      case Field(key, value) =>
      case ObjectiveEntry(name, status) => ObjectiveNameBack(name);
      case PlayerEntry(id, param, setting) =>
        assert ObjectiveName(KeyText(e)).None?;
        PlayerParamBack(param, id);
        SetParam(AbsorbAll(PairsOf(init)).players, PlayersOf(init), id, param, setting);
    }
  }

  // ---------------------------------------------------------------- the record

  /** Only objectives may repeat. */
  ghost predicate KeysDiffer(es: seq<Entry>) {
    forall i, j :: 0 <= i < j < |es| && KeyText(es[i]) == KeyText(es[j]) ==> es[i].ObjectiveEntry?
  }

  ghost predicate SameNumber(a: Entry, b: Entry) {
    && a.PlayerEntry? && b.PlayerEntry? && Text.AllDigits(a.id) && Text.AllDigits(b.id)
    && Text.Value(a.id) == Text.Value(b.id)
  }

  /** Different player ids are different numbers. */
  ghost predicate IdsDiffer(es: seq<Entry>) {
    forall a, b :: a in es && b in es && SameNumber(a, b) ==> a.id == b.id
  }

  /** Each player's number is less than those of all that follow. */
  ghost predicate Ascending(players: seq<Player>) {
    players != [] ==>
      && HasNumber(players[0]) && Below(players[0], players[1..])
      && Ascending(players[1..])
  }

  ghost predicate Below(p: Player, players: seq<Player>)
    requires HasNumber(p)
  {
    forall q :: q in players ==> HasNumber(q) && Number(p) < Number(q)
  }

  /** The information is the record the entries describe, its players in strictly increasing order of number. */
  ghost predicate IsRecordOf(info: Info, es: seq<Entry>) {
    && (forall e :: e in es && e.Field? ==> e.key in info.fields && info.fields[e.key] == e.value)
    && (forall k :: k in info.fields ==> Field(k, info.fields[k]) in es)
    && info.objectives == Listed(ObjectivesOf(es))
    && Ascending(info.players)
    && (forall e :: e in es && e.PlayerEntry? ==>
      exists q :: q in info.players && IsPlayer(q, e.id, es))
    && (forall q :: q in info.players ==> "id" in q && IsPlayer(q, q["id"], es))
  }

  /** The player of this id has exactly the parameters the entries give it. */
  ghost predicate IsPlayer(q: Player, id: string, es: seq<Entry>) {
    && "id" in q && q["id"] == id
    && (exists e :: e in es && e.PlayerEntry? && e.id == id)
    && (forall k :: k in q && k != "id" ==> PlayerEntry(id, k, q[k]) in es)
    && (forall e :: e in es && e.PlayerEntry? && e.id == id ==> e.param in q && q[e.param] == e.setting)
  }

  lemma KeyOnce(es: seq<Entry>, i: nat, j: nat)
    requires KeysDiffer(es) && i < j < |es| && !es[i].ObjectiveEntry?
    ensures KeyText(es[i]) != KeyText(es[j])
  {
  }

  lemma {:induction false} FieldsAre(es: seq<Entry>)
    requires KeysDiffer(es)
    ensures forall e :: e in es && e.Field? ==> e.key in FieldsOf(es) && FieldsOf(es)[e.key] == e.value
    ensures forall k :: k in FieldsOf(es) ==> Field(k, FieldsOf(es)[k]) in es
  {
    if es != [] {
      var n := |es| - 1;
      var init, last := es[..n], es[n];
      FieldsAre(init);
      forall e | e in es && e.Field? ensures e.key in FieldsOf(es) && FieldsOf(es)[e.key] == e.value {
        if e != last || e in init {
          var i :| 0 <= i < |es| && es[i] == e && (i < n || e == last);
          if i < n {
            assert init[i] == e;
            KeyOnce(es, i, n);
          }
        }
      }
    }
  }

  lemma {:induction false} PlayersNamed(es: seq<Entry>)
    ensures forall e :: e in es && e.PlayerEntry? ==> e.id in PlayersOf(es)
  {
    if es != [] {
      PlayersNamed(es[..|es| - 1]);
      Text.InitAndLast(es);
    }
  }

  /** The parameters of one player, from the entries. */
  lemma {:induction false} PlayersAre(es: seq<Entry>)
    requires AllFit(es) && KeysDiffer(es)
    ensures forall e :: e in es && e.PlayerEntry? ==> e.id in PlayersOf(es)
    ensures forall id :: id in PlayersOf(es) ==> IsPlayer(PlayersOf(es)[id], id, es)
  {
    if es != [] {
      var n := |es| - 1;
      var init, last := es[..n], es[n];
      InitFits(es);
      PlayersAre(init);
      PlayersNamed(es);
      forall id | id in PlayersOf(es) ensures IsPlayer(PlayersOf(es)[id], id, es) {
        PlayerGrows(es, init, last, id);
      }
    }
  }

  lemma InitFits(es: seq<Entry>)
    requires AllFit(es) && KeysDiffer(es) && es != []
    ensures var init, last := es[..|es| - 1], es[|es| - 1];
            AllFit(init) && KeysDiffer(init) && Fits(last) && es == init + [last]
  {
    assert forall e :: e in es[..|es| - 1] ==> e in es;
    assert es[|es| - 1] in es;
  }

  lemma PlayerGrows(es: seq<Entry>, init: seq<Entry>, last: Entry, id: string)
    requires KeysDiffer(es) && es == init + [last] && Fits(last)
    requires id in PlayersOf(es) && forall k :: k in PlayersOf(init) ==> IsPlayer(PlayersOf(init)[k], k, init)
    requires forall e :: e in init && e.PlayerEntry? ==> e.id in PlayersOf(init)
    ensures IsPlayer(PlayersOf(es)[id], id, es)
  {
    assert es[..|es| - 1] == init;
    if last.PlayerEntry? && last.id == id {
      if id in PlayersOf(init) {
        OwnEntryAdded(PlayersOf(init)[id], id, es, init, last);
      } else {
        FirstEntryAdded(id, es, init, last);
      }
    } else {
      OtherEntryAdded(PlayersOf(init)[id], id, es, init, last);
    }
  }

  /** An entry of another player, or of none, leaves a player alone. */
  lemma OtherEntryAdded(q: Player, id: string, es: seq<Entry>, init: seq<Entry>, last: Entry)
    requires es == init + [last] && IsPlayer(q, id, init) && !(last.PlayerEntry? && last.id == id)
    ensures IsPlayer(q, id, es)
  {
    var e :| e in init && e.PlayerEntry? && e.id == id;
    assert e in es;
  }

  lemma FirstEntryAdded(id: string, es: seq<Entry>, init: seq<Entry>, last: Entry)
    requires es == init + [last] && Fits(last) && last.PlayerEntry? && last.id == id
    requires forall e :: e in init && e.PlayerEntry? ==> e.id != id
    ensures IsPlayer(map["id" := id][last.param := last.setting], id, es)
  {
    assert last in es;
  }

  /** One more entry of a player sets one more parameter. */
  lemma OwnEntryAdded(q: Player, id: string, es: seq<Entry>, init: seq<Entry>, last: Entry)
    requires KeysDiffer(es) && es == init + [last] && Fits(last) && last.PlayerEntry? && last.id == id
    requires IsPlayer(q, id, init)
    ensures IsPlayer(q[last.param := last.setting], id, es)
  {
    var after := q[last.param := last.setting];
    assert last in es;
    forall e | e in es && e.PlayerEntry? && e.id == id ensures e.param in after && after[e.param] == e.setting {
      if e != last {
        var i :| 0 <= i < |init| && init[i] == e;
        assert es[i] == e && es[|init|] == last;
        KeyOnce(es, i, |init|);
      }
    }
    forall k | k in after && k != "id" ensures PlayerEntry(id, k, after[k]) in es {
      if k != last.param { assert k in q && PlayerEntry(id, k, q[k]) in init; }
    }
  }

  // ---------------------------------------------------------------- sorting

  lemma {:induction false} InsertAscending(sorted: seq<Player>, p: Player)
    requires HasNumber(p) && forall q :: q in sorted ==> HasNumber(q) && Number(q) != Number(p)
    requires Ascending(sorted)
    ensures Ascending(Insert(sorted, p))
  {
    if sorted == [] {
    } else if Number(p) < Number(sorted[0]) {
      assert sorted[0] in sorted;
      assert ([p] + sorted)[1..] == sorted;
    } else {
      var rest := sorted[1..];
      assert sorted[0] in sorted && forall q :: q in rest ==> q in sorted;
      InsertAscending(rest, p);
      assert Insert(sorted, p)[1..] == Insert(rest, p);
    }
  }

  ghost predicate NumbersDiffer(list: seq<(string, Player)>) {
    && (forall x :: x in list ==> HasNumber(x.1))
    && forall i, j :: 0 <= i < j < |list| ==> Number(list[i].1) != Number(list[j].1)
  }

  ghost predicate InList(list: seq<(string, Player)>, q: Player) {
    exists x :: x in list && x.1 == q
  }

  lemma {:induction false} SortAscending(list: seq<(string, Player)>)
    requires NumbersDiffer(list)
    ensures Ascending(SortPlayers(list))
    ensures forall q :: q in SortPlayers(list) <==> InList(list, q)
  {
    if list != [] {
      var init, last := list[..|list| - 1], list[|list| - 1];
      assert list == init + [last];
      LastDiffers(init, last);
      SortAscending(init);
      InsertAscending(SortPlayers(init), last.1);
      forall q ensures InList(list, q) <==> InList(init, q) || q == last.1 {
        InListWith(init, last, q);
      }
    }
  }

  lemma InListWith(init: seq<(string, Player)>, last: (string, Player), q: Player)
    ensures InList(init + [last], q) <==> InList(init, q) || q == last.1
  {
    assert last in init + [last];
    if InList(init, q) {
      var x :| x in init && x.1 == q;
      assert x in init + [last];
    }
  }

  lemma LastDiffers(init: seq<(string, Player)>, last: (string, Player))
    requires NumbersDiffer(init + [last])
    ensures NumbersDiffer(init) && HasNumber(last.1)
    ensures forall q :: InList(init, q) ==> HasNumber(q) && Number(q) != Number(last.1)
  {
    var list := init + [last];
    assert list[|init|] == last && last in list;
    forall i | 0 <= i < |init| ensures HasNumber(init[i].1) && Number(init[i].1) != Number(last.1) {
      assert list[i] == init[i] && list[i] in list;
    }
    forall i, j | 0 <= i < j < |init| ensures Number(init[i].1) != Number(init[j].1) {
      assert list[i] == init[i] && list[j] == init[j];
    }
  }

  lemma {:induction false} RepresentsFacts(list: seq<(string, Player)>, players: map<string, Player>)
    requires Represents(list, players)
    ensures forall i :: 0 <= i < |list| ==> list[i].0 in players && players[list[i].0] == list[i].1
    ensures forall i, j :: 0 <= i < j < |list| ==> list[i].0 != list[j].0
    ensures forall id :: id in players ==> (id, players[id]) in list
  {
    if list != [] {
      var rest := players - {list[0].0};
      RepresentsFacts(list[1..], rest);
      assert forall i :: 0 < i < |list| ==> list[i] == list[1..][i - 1];
      forall id | id in players ensures (id, players[id]) in list {
        if id == list[0].0 {
          assert list[0] == (id, players[id]);
        } else {
          assert (id, rest[id]) in list[1..];
        }
      }
    }
  }

  /** Expanding the pairs of entries gives the record they describe. */
  lemma ExpandedRecord(es: seq<Entry>)
    requires AllFit(es) && KeysDiffer(es) && IdsDiffer(es)
    ensures var r := Finish(AbsorbAll(PairsOf(es)));
            r.Ok? && IsRecordOf(r.value, es)
  {
    AbsorbEntries(es);
    FieldsAre(es);
    PlayersSorted(es, AbsorbAll(PairsOf(es)).players);
  }

  lemma PlayersSorted(es: seq<Entry>, list: seq<(string, Player)>)
    requires AllFit(es) && KeysDiffer(es) && IdsDiffer(es) && Represents(list, PlayersOf(es))
    ensures forall x :: x in list ==> HasNumber(x.1)
    ensures Ascending(SortPlayers(list))
    ensures forall e :: e in es && e.PlayerEntry? ==> exists q :: q in SortPlayers(list) && IsPlayer(q, e.id, es)
    ensures forall q :: q in SortPlayers(list) ==> "id" in q && IsPlayer(q, q["id"], es)
  {
    PlayersAre(es);
    RepresentsFacts(list, PlayersOf(es));
    PlayersNumbered(es, list);
    SortAscending(list);
    SortedPlayersAre(es, list);
  }

  lemma SortedPlayersAre(es: seq<Entry>, list: seq<(string, Player)>)
    requires forall x :: x in list ==> HasNumber(x.1)
    requires forall e :: e in es && e.PlayerEntry? ==> e.id in PlayersOf(es)
    requires forall id :: id in PlayersOf(es) ==> IsPlayer(PlayersOf(es)[id], id, es) && (id, PlayersOf(es)[id]) in list
    requires forall i :: 0 <= i < |list| ==> list[i].0 in PlayersOf(es) && PlayersOf(es)[list[i].0] == list[i].1
    requires forall q :: q in SortPlayers(list) <==> InList(list, q)
    ensures forall e :: e in es && e.PlayerEntry? ==> exists q :: q in SortPlayers(list) && IsPlayer(q, e.id, es)
    ensures forall q :: q in SortPlayers(list) ==> "id" in q && IsPlayer(q, q["id"], es)
  {
    forall e | e in es && e.PlayerEntry? ensures exists q :: q in SortPlayers(list) && IsPlayer(q, e.id, es) {
      var q := PlayersOf(es)[e.id];
      assert (e.id, q) in list;
      assert InList(list, q) && IsPlayer(q, e.id, es);
    }
    forall q | q in SortPlayers(list) ensures "id" in q && IsPlayer(q, q["id"], es) {
      var x :| x in list && x.1 == q;
      assert IsPlayer(PlayersOf(es)[x.0], x.0, es);
    }
  }

  lemma PlayersNumbered(es: seq<Entry>, list: seq<(string, Player)>)
    requires AllFit(es) && IdsDiffer(es)
    requires forall id :: id in PlayersOf(es) ==> IsPlayer(PlayersOf(es)[id], id, es)
    requires forall i :: 0 <= i < |list| ==> list[i].0 in PlayersOf(es) && PlayersOf(es)[list[i].0] == list[i].1
    requires forall i, j :: 0 <= i < j < |list| ==> list[i].0 != list[j].0
    ensures NumbersDiffer(list)
  {
    forall i | 0 <= i < |list|
      ensures HasNumber(list[i].1) && HasEntry(es, list[i].0) && Number(list[i].1) == Text.Value(list[i].0)
    {
      PlayerNumbered(es, list[i].0, list[i].1);
    }
    forall i, j | 0 <= i < j < |list| ensures Number(list[i].1) != Number(list[j].1) {
      assert HasEntry(es, list[i].0) && HasEntry(es, list[j].0);
      var a :| a in es && a.PlayerEntry? && a.id == list[i].0 && Text.AllDigits(a.id);
      var b :| b in es && b.PlayerEntry? && b.id == list[j].0 && Text.AllDigits(b.id);
      assert a.id != b.id && !SameNumber(a, b);
    }
  }

  ghost predicate HasEntry(es: seq<Entry>, id: string) {
    Text.AllDigits(id) && exists e :: e in es && e.PlayerEntry? && e.id == id && Text.AllDigits(e.id)
  }

  lemma PlayerNumbered(es: seq<Entry>, id: string, q: Player)
    requires AllFit(es) && IsPlayer(q, id, es)
    ensures HasEntry(es, id) && HasNumber(q) && Number(q) == Text.Value(id)
  {
    var e :| e in es && e.PlayerEntry? && e.id == id;
    assert Fits(e);
    Text.ParseDigits(id);
  }
}
