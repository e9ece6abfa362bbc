/**
 The GameSpy status query: datagrams are collected in any order until the response is complete, put in order,
 stripped of their envelopes, joined and expanded into server information.
 */
module StatusQuery {
  import opened Wrappers
  import Text
  import FiniteSets

  type Pair = (string, string)

  datatype Objective = Objective(name: string, status: string)

  /** The list of objectives, or the text that a parameter of that name put in its place. */
  datatype Objectives = Listed(list: seq<Objective>) | Replaced(text: string)

  type Player = map<string, string>

  datatype Info = Info(fields: map<string, string>, objectives: Objectives, players: seq<Player>)

  datatype Error = Malformed | Incomplete | AttributeError | ValueError

  // ---------------------------------------------------------------- parsing

  /** Consecutive tokens taken as keys and values; a key without a value is dropped. */
  function PairUp(tokens: seq<string>): seq<Pair> {
    if |tokens| < 2 then [] else [(tokens[0], tokens[1])] + PairUp(tokens[2..])
  }

  /** The pairs of a payload: what precedes the first backslash is skipped. */
  function Pairs(data: string): seq<Pair> {
    PairUp(Text.Split(data, '\\')[1..])
  }

  /** The tokens not yet paired when the loop is at index i. */
  ghost function Unpaired(split: seq<string>, i: nat): seq<string> {
    var k := if i % 2 == 1 then i else i + 1;
    if k <= |split| then split[k..] else []
  }

  method ParseStatusPayload(data: string) returns (params: seq<Pair>)
    ensures params == Pairs(data)
  {
    params := [];
    var split := Text.Split(data, '\\');
    var i := 0;
    while i < |split|
      invariant 0 <= i <= |split|
      invariant params + PairUp(Unpaired(split, i)) == Pairs(data)
    {
      // even places hold values
      if i % 2 == 1 && i + 1 < |split| {
        params := params + [(split[i], split[i + 1])];
        assert split[i..][2..] == split[i + 2..];
      }
      i := i + 1;
    }
  }

  // ---------------------------------------------------------------- collecting

  /** A statusresponse counts from zero and a queryid from one; what is no integer stands for 1. */
  function OrderIn(param: Pair): int {
    var n := Text.ParseInt(param.1);
    if n.None? then 1 else if param.0 == "statusresponse" then n.value + 1 else n.value
  }

  /** The order a packet claims: that in its first statusresponse or queryid. */
  function OrderOf(params: seq<Pair>): Option<int> {
    if params == [] then None
    else if params[0].0 == "statusresponse" || params[0].0 == "queryid" then Some(OrderIn(params[0]))
    else OrderOf(params[1..])
  }

  predicate IsFinal(params: seq<Pair>) {
    exists i :: 0 <= i < |params| && params[i].0 == "final"
  }

  function Order(packet: string): Option<int> {
    OrderOf(Pairs(packet))
  }

  predicate Final(packet: string) {
    IsFinal(Pairs(packet))
  }

  const STATUS_PREFIX := "\\statusresponse\\"
  const EOF_SUFFIX := "\\eof\\"

  /** How many digits a text starts with. */
  function LeadingDigits(s: string): (n: nat)
    ensures n <= |s| && Text.AllDigits(s[..n])
    ensures n < |s| ==> !Text.IsDigit(s[n])
  {
    if s != "" && Text.IsDigit(s[0]) then 1 + LeadingDigits(s[1..]) else 0
  }

  /**
   What the envelope pattern captures in the text between the prefix and the suffix: everything after the
   digits, or the last digit when there is nothing else; None when the pattern does not match.
   */
  function Captured(body: string): Option<string> {
    var n := LeadingDigits(body);
    if n == 0 || '\n' in body[n..] then None
    else if n < |body| then Some(body[n..])
    else if n >= 2 then Some(body[n - 1..])
    else None
  }

  /** One line break at the very end, if there is one. */
  function LineEnd(data: string): (tail: string)
    ensures tail == "" || tail == "\n"
    ensures |tail| <= |data| && data[..|data| - |tail|] + tail == data
  {
    if data != "" && data[|data| - 1] == '\n' then "\n" else ""
  }

  predicate HasEnds(core: string) {
    && |core| >= |STATUS_PREFIX| + |EOF_SUFFIX| && STATUS_PREFIX <= core
    && core[|core| - |EOF_SUFFIX|..] == EOF_SUFFIX
  }

  /** Remove the statusresponse and eof envelope, which may be followed by one line break. */
  function Normalize(data: string): string {
    var tail := LineEnd(data);
    var core := data[..|data| - |tail|];
    if HasEnds(core) then
      var captured := Captured(core[|STATUS_PREFIX|..|core| - |EOF_SUFFIX|]);
      if captured.Some? then captured.value + tail else data
    else data
  }

  /** The packets by order; a later packet replaces an earlier one of the same order. */
  function Ordered(packets: seq<string>): map<int, string>
    requires forall p :: p in packets ==> Order(p).Some?
  {
    if packets == [] then map[]
    else
      var last := packets[|packets| - 1];
      Ordered(packets[..|packets| - 1])[Order(last).value := last]
  }

  /** The order of the last final packet. */
  function Expected(packets: seq<string>): Option<int> {
    if packets == [] then None
    else
      var last := packets[|packets| - 1];
      if Final(last) then Order(last) else Expected(packets[..|packets| - 1])
  }

  /** The normalized packets joined by increasing order. */
  function Assemble(ordered: map<int, string>): string
    decreases ordered.Keys
  {
    if ordered.Keys == {} then ""
    else
      var first := FiniteSets.Min(ordered.Keys);
      Normalize(ordered[first]) + Assemble(ordered - {first})
  }

  /** The payload, once as many orders are present as the final packet announces. */
  function Collected(packets: seq<string>): Result<string, Error> {
    if !(forall p :: p in packets ==> Order(p).Some?) then Err(Malformed)
    else
      var count := Expected(packets);
      if count.None? || count.value == 0 || count.value != |Ordered(packets)| then Err(Incomplete)
      else Ok(Assemble(Ordered(packets)))
  }

  predicate FinalWithin(params: seq<Pair>, n: nat)
    requires n <= |params|
  {
    exists k :: 0 <= k < n && params[k].0 == "final"
  }

  lemma OneMoreParam(params: seq<Pair>, i: nat)
    requires i < |params|
    ensures FinalWithin(params, i + 1) <==> FinalWithin(params, i) || params[i].0 == "final"
    ensures OrderOf(params[i..])
         == if params[i].0 == "statusresponse" || params[i].0 == "queryid" then Some(OrderIn(params[i]))
            else OrderOf(params[i + 1..])
  {
    assert params[i..][0] == params[i] && params[i..][1..] == params[i + 1..];
  }

  /** Read order and finality off one packet. */
  method InspectPacket(packet: string) returns (order: Option<int>, isFinal: bool)
    ensures order == Order(packet) && isFinal == Final(packet)
  {
    order, isFinal := None, false;
    var params := ParseStatusPayload(packet);
    var i := 0;
    Text.WholeSuffix(params);
    while i < |params|
      invariant 0 <= i <= |params|
      invariant order.Some? ==> order == OrderOf(params)
      invariant order.None? ==> OrderOf(params) == OrderOf(params[i..])
      invariant isFinal <==> FinalWithin(params, i)
    {
      var param := params[i].0;
      if order.None? && (param == "statusresponse" || param == "queryid") {
        order := Some(OrderIn(params[i]));
      } else if param == "final" {
        isFinal := true;
      }
      OneMoreParam(params, i);
      i := i + 1;
    }
  }

  lemma OneMorePacket(packets: seq<string>, i: nat)
    requires i < |packets| && (forall p :: p in packets[..i] ==> Order(p).Some?) && Order(packets[i]).Some?
    ensures forall p :: p in packets[..i + 1] ==> Order(p).Some?
    ensures Expected(packets[..i + 1]) == if Final(packets[i]) then Order(packets[i]) else Expected(packets[..i])
    ensures Ordered(packets[..i + 1]) == Ordered(packets[..i])[Order(packets[i]).value := packets[i]]
  {
    Text.OneMore(packets, i);
    Text.Init(packets[..i], packets[i]);
  }

  method CollectStatusPayload(packets: seq<string>) returns (r: Result<string, Error>)
    ensures r == Collected(packets)
  {
    var count: Option<int> := None;
    var ordered: map<int, string> := map[];
    var i := 0;
    while i < |packets|
      invariant 0 <= i <= |packets|
      invariant forall p :: p in packets[..i] ==> Order(p).Some?
      invariant count == Expected(packets[..i])
      invariant ordered == Ordered(packets[..i])
    {
      var packet := packets[i];
      var order, isFinal := InspectPacket(packet);
      if isFinal { count := order; }
      if order.None? {
        assert packet in packets;
        return Err(Malformed);
      }
      ordered := ordered[order.value := packet];
      OneMorePacket(packets, i);
      i := i + 1;
    }
    assert packets[..|packets|] == packets;
    if count.None? || count.value == 0 || count.value != |ordered| { return Err(Incomplete); }
    var payload := JoinInOrder(ordered);
    return Ok(payload);
  }

  lemma FirstAssembled(payload: string, left: map<int, string>, text: string)
    requires left.Keys != {} && text == Normalize(left[FiniteSets.Min(left.Keys)])
    ensures payload + Assemble(left) == (payload + text) + Assemble(left - {FiniteSets.Min(left.Keys)})
  {
    Text.JoinedTwice(payload, text, Assemble(left - {FiniteSets.Min(left.Keys)}));
  }

  /** Sort packets by their order, normalize and join them. */
  method JoinInOrder(ordered: map<int, string>) returns (payload: string)
    ensures payload == Assemble(ordered)
  {
    payload := "";
    var left := ordered;
    while left.Keys != {}
      invariant payload + Assemble(left) == Assemble(ordered)
      decreases left.Keys
    {
      var first := FiniteSets.Min(left.Keys);
      FirstAssembled(payload, left, Normalize(left[first]));
      payload := payload + Normalize(left[first]);
      left := left - {first};
    }
  }

  // ---------------------------------------------------------------- expanding

  /** The objective a parameter names: the pattern `^obj_(.+)$`. */
  function ObjectiveName(param: string): Option<string> {
    if !("obj_" <= param) then None
    else
      var rest := param[4..];
      var name := if rest != "" && rest[|rest| - 1] == '\n' then rest[..|rest| - 1] else rest;
      if name == "" || '\n' in name then None else Some(name)
  }

  /** How many digits a text ends with. */
  function TrailingDigits(s: string): (n: nat)
    ensures n <= |s| && Text.AllDigits(s[|s| - n..])
    ensures n < |s| ==> !Text.IsDigit(s[|s| - n - 1])
  {
    if s != "" && Text.IsDigit(s[|s| - 1]) then
      var n := TrailingDigits(s[..|s| - 1]);
      Text.SuffixWithLast(s, |s| - 1 - n);
      n + 1
    else 0
  }

  /** The player parameter and id a parameter names: the pattern `(.+)_(\d+)$`. */
  function PlayerParam(param: string): Option<Pair> {
    var s := if param != "" && param[|param| - 1] == '\n' then param[..|param| - 1] else param;
    ParamBefore(s, TrailingDigits(s))
  }

  /** The parameter and the id of a text that ends with n digits. */
  function ParamBefore(s: string, n: nat): Option<Pair>
    requires n <= |s|
  {
    var cut := |s| - n - 1;
    if n == 0 || cut < 1 || s[cut] != '_' || '\n' in s[..cut] then None
    else Some((s[..cut], s[cut + 1..]))
  }

  /** The dictionary under construction: players in order of first mention. */
  datatype Partial =
    | Partial(
        players: seq<(string, Player)>,
        playersReplaced: bool,
        objectives: Objectives,
        fields: map<string, string>)
    | Raised

  const START := Partial([], false, Listed([]), map[])

  /** Set one parameter of a player, who starts out with nothing but an id. */
  function WithPlayerParam(players: seq<(string, Player)>, id: string, param: string, value: string)
    : seq<(string, Player)>
  {
    if players == [] then [(id, map["id" := id][param := value])]
    else if players[0].0 == id then [(id, players[0].1[param := value])] + players[1..]
    else [players[0]] + WithPlayerParam(players[1..], id, param, value)
  }

  /** Take in one pair. */
  function Absorb(acc: Partial, pair: Pair): Partial {
    var (param, value) := pair;
    if acc.Raised? then Raised
    else if ObjectiveName(param).Some? then
      if acc.objectives.Replaced? then Raised
      else acc.(objectives := Listed(acc.objectives.list + [Objective(ObjectiveName(param).value, value)]))
    else if PlayerParam(param).Some? then
      var (name, id) := PlayerParam(param).value;
      if acc.playersReplaced then Raised
      else acc.(players := WithPlayerParam(acc.players, id, name, value))
    else WithField(acc, param, value)
  }

  /** Set a field; those of two names take the place of the lists that are being built. */
  function WithField(acc: Partial, param: string, value: string): Partial
    requires acc.Partial?
  {
    if param == "players" then acc.(playersReplaced := true)
    else if param == "objectives" then acc.(objectives := Replaced(value))
    else acc.(fields := acc.fields[param := value])
  }

  function AbsorbAll(params: seq<Pair>): Partial {
    if params == [] then START else Absorb(AbsorbAll(params[..|params| - 1]), params[|params| - 1])
  }

  lemma AbsorbNext(params: seq<Pair>, i: nat)
    requires i < |params|
    ensures AbsorbAll(params[..i + 1]) == Absorb(AbsorbAll(params[..i]), params[i])
  {
    assert params[..i + 1][..i] == params[..i];
  }

  predicate HasNumber(p: Player) {
    "id" in p && Text.ParseInt(p["id"]).Some?
  }

  /** The number players are sorted by. */
  function Number(p: Player): int {
    if HasNumber(p) then Text.ParseInt(p["id"]).value else 0
  }

  /** Insert a player behind all players of no greater number. */
  function Insert(sorted: seq<Player>, p: Player): (r: seq<Player>)
    ensures forall q :: q in r <==> q == p || q in sorted
  {
    if sorted == [] then [p]
    else if Number(p) < Number(sorted[0]) then [p] + sorted
    else [sorted[0]] + Insert(sorted[1..], p)
  }

  /** The players in a stable order by number. */
  function SortPlayers(players: seq<(string, Player)>): seq<Player> {
    if players == [] then []
    else Insert(SortPlayers(players[..|players| - 1]), players[|players| - 1].1)
  }

  function Finish(acc: Partial): Result<Info, Error> {
    if acc.Raised? || acc.playersReplaced then Err(AttributeError)
    else if !(forall x :: x in acc.players ==> HasNumber(x.1)) then Err(ValueError)
    else Ok(Info(acc.fields, acc.objectives, SortPlayers(acc.players)))
  }

  function Expanded(data: string): Result<Info, Error> {
    Finish(AbsorbAll(Pairs(data)))
  }

  method ExpandStatusPayload(data: string) returns (r: Result<Info, Error>)
    ensures r == Expanded(data)
  {
    var acc := START;
    var params := ParseStatusPayload(data);
    var i := 0;
    while i < |params|
      invariant 0 <= i <= |params|
      invariant acc == AbsorbAll(params[..i])
    {
      AbsorbNext(params, i);
      acc := Absorb(acc, params[i]);
      i := i + 1;
    }
    assert params[..|params|] == params;
    r := Finish(acc);
  }

  // ---------------------------------------------------------------- receiving

  datatype Outcome = Received(info: Info) | Failed(error: Error) | TimedOut

  /** What the task ends with once a payload is collected or found malformed. */
  function Concluded(payload: Result<string, Error>): Outcome {
    match payload
    case Err(e) => Failed(e)
    case Ok(text) => if Expanded(text).Ok? then Received(Expanded(text).value) else Failed(Expanded(text).error)
  }

  ghost predicate StillIncomplete(arrivals: seq<string>, k: nat)
    requires k <= |arrivals|
  {
    Collected(arrivals[..k]) == Err(Incomplete)
  }

  /** Every prefix of the arrivals shorter than n is incomplete. */
  ghost predicate IncompleteBefore(arrivals: seq<string>, n: nat)
    requires n <= |arrivals|
  {
    forall k :: 1 <= k < n ==> StillIncomplete(arrivals, k)
  }

  lemma IncompleteOneMore(arrivals: seq<string>, n: nat)
    requires n < |arrivals| && IncompleteBefore(arrivals, n) && (n > 0 ==> StillIncomplete(arrivals, n))
    ensures IncompleteBefore(arrivals, n + 1)
  {
  }

  /**
   Read datagrams until the response is complete.  `used` is the number of datagrams read; the receive loop
   stops at the first prefix of the arrivals that does not leave the response incomplete.
   */
  method Receive(arrivals: seq<string>) returns (outcome: Outcome, used: nat)
    ensures used <= |arrivals|
    ensures IncompleteBefore(arrivals, used)
    ensures outcome.TimedOut? ==> used == |arrivals| && (used > 0 ==> StillIncomplete(arrivals, used))
    ensures !outcome.TimedOut? ==>
              used >= 1 && !StillIncomplete(arrivals, used) && outcome == Concluded(Collected(arrivals[..used]))
  {
    var packets: seq<string> := [];
    used := 0;
    while used < |arrivals|
      invariant used <= |arrivals| && packets == arrivals[..used]
      invariant IncompleteBefore(arrivals, used) && (used > 0 ==> StillIncomplete(arrivals, used))
    {
      Text.OneMore(arrivals, used);
      IncompleteOneMore(arrivals, used);
      packets := packets + [arrivals[used]];
      used := used + 1;
      var payload := CollectStatusPayload(packets);
      if payload.Err? {
        if payload.error != Incomplete { return Failed(payload.error), used; }
      } else {
        var info := ExpandStatusPayload(payload.value);
        return if info.Ok? then Received(info.value) else Failed(info.error), used;
      }
    }
    return TimedOut, used;
  }
}
