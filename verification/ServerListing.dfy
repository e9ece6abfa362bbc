/**
 Which servers are listed: the periodic status refresh counts failures and caches replies, servers that fail too
 often are unlisted, and servers that stream a game or are discovered again are relisted.
 */
module ServerListing {
  import FiniteSets

  type Id = int

  /** Failures in a row after which a server is no longer expected to be online. */
  const TOLERATED_FAILURES: int := 12

  datatype Server = Server(port: int, enabled: bool, listed: bool, failures: nat)

  datatype Status = Status(hostport: int, fields: map<string, string>)

  /** What asking a server yields: a payload that passes validation, one that does not, or an exception. */
  datatype Reply = Answer(status: Status) | Malformed(error: string) | Unreachable(error: string)

  datatype Verdict = Live(status: Status) | WrongPort | Failure

  /** A valid reply that reports another join port is neither a success nor a failure. */
  function Judge(server: Server, reply: Reply): Verdict {
    if !reply.Answer? then Failure
    else if reply.status.hostport != server.port then WrongPort
    else Live(reply.status)
  }

  datatype State = State(servers: map<Id, Server>, cached: map<Id, Status>)

  predicate Asked(s: State, id: Id) {
    id in s.servers && s.servers[id].enabled && s.servers[id].listed
  }

  function Judged(server: Server, verdict: Verdict): Server {
    match verdict
    case Live(_) => server.(failures := 0)
    case WrongPort => server
    case Failure => server.(failures := server.failures + 1)
  }

  function Refreshed(s: State, replies: Id -> Reply): State {
    State(
      map id | id in s.servers ::
        if Asked(s, id) then Judged(s.servers[id], Judge(s.servers[id], replies(id))) else s.servers[id],
      s.cached + Lives(s, replies))
  }

  function Lives(s: State, replies: Id -> Reply): (live: map<Id, Status>)
    ensures forall id :: id in live <==> Asked(s, id) && Judge(s.servers[id], replies(id)).Live?
  {
    map id | id in s.servers && Asked(s, id) && Judge(s.servers[id], replies(id)).Live? :: replies(id).status
  }

  predicate Exceeded(server: Server) {
    server.listed && server.failures >= TOLERATED_FAILURES
  }

  /** The servers over the tolerance, whether enabled or not, lose their listing and their cached status. */
  function Unlisted(s: State): State {
    State(
      map id | id in s.servers :: if Exceeded(s.servers[id]) then s.servers[id].(listed := false) else s.servers[id],
      map id | id in s.cached && !(id in s.servers && Exceeded(s.servers[id])) :: s.cached[id])
  }

  /** The servers are listed again with no failures, unless they are listed already. */
  function Relisted(s: State, ids: set<Id>): State {
    s.(servers := map id | id in s.servers ::
      if id in ids && !s.servers[id].listed then s.servers[id].(listed := true, failures := 0) else s.servers[id])
  }

  /** A registration is accepted when the server answers validly at its own port and is not listed already. */
  predicate Accepted(s: State, id: Id, port: int, reply: Reply) {
    && !(id in s.servers && s.servers[id].listed)
    && Judge(if id in s.servers then s.servers[id] else Server(port, true, true, 0), reply).Live?
  }

  /** An accepted server is listed, new or not, with no failures and with the status it answered. */
  function Registered(s: State, id: Id, port: int, reply: Reply): State {
    if !Accepted(s, id, port, reply) then s
    else
      var row := if id in s.servers then s.servers[id].(listed := true, failures := 0) else Server(port, true, true, 0);
      State(s.servers[id := row], s.cached[id := reply.status])
  }

  /** A server found by discovery starts out unlisted. */
  function Discovered(s: State, id: Id, port: int): State {
    if id in s.servers then s else s.(servers := s.servers[id := Server(port, true, false, 0)])
  }

  /** Listing again twice lists what listing once would. */
  lemma RelistedTwice(s: State, a: set<Id>, b: set<Id>)
    ensures Relisted(Relisted(s, a), b) == Relisted(s, a + b)
  {
    FiniteSets.MapsEqual(Relisted(Relisted(s, a), b).servers, Relisted(s, a + b).servers);
  }

  function WithoutFailures(servers: map<Id, Server>, ids: set<Id>): map<Id, Server> {
    map id | id in servers ::
      if id in ids && servers[id].listed && servers[id].failures > 0 then servers[id].(failures := 0) else servers[id]
  }

  function WithFailure(servers: map<Id, Server>, ids: set<Id>): map<Id, Server> {
    map id | id in servers ::
      if id in ids && servers[id].listed then servers[id].(failures := servers[id].failures + 1) else servers[id]
  }

  lemma NobodyTouched(servers: map<Id, Server>)
    ensures WithoutFailures(servers, {}) == servers && WithFailure(servers, {}) == servers
  {
    FiniteSets.MapsEqual(WithoutFailures(servers, {}), servers);
    FiniteSets.MapsEqual(WithFailure(servers, {}), servers);
  }

  /** The two signals, one for the live servers and one for the failed, add up to the refresh. */
  lemma SignalsRefresh(s: State, replies: Id -> Reply, live: map<Id, Status>, failed: set<Id>)
    requires forall id :: id in failed <==> Asked(s, id) && Judge(s.servers[id], replies(id)) == Failure
    requires forall id :: id in live ==> Asked(s, id) && Judge(s.servers[id], replies(id)) == Live(live[id])
    requires forall id :: Asked(s, id) && Judge(s.servers[id], replies(id)).Live? ==> id in live
    ensures WithFailure(WithoutFailures(s.servers, live.Keys), failed) == Refreshed(s, replies).servers
    ensures s.cached + live == Refreshed(s, replies).cached
  {
    var after, full := WithFailure(WithoutFailures(s.servers, live.Keys), failed), Refreshed(s, replies);
    forall id | id in s.servers ensures after[id] == full.servers[id] {
      assert id in live.Keys <==> id in live;
      SignalsJudge(s, replies, live, failed, id);
    }
    FiniteSets.MapsEqual(after, full.servers);
    forall id ensures id in live <==> id in Lives(s, replies) {
      assert Asked(s, id) ==> id in s.servers;
    }
    FiniteSets.MapsEqual(live, Lives(s, replies));
  }

  lemma SignalsJudge(s: State, replies: Id -> Reply, live: map<Id, Status>, failed: set<Id>, id: Id)
    requires id in s.servers
    requires id in failed <==> Asked(s, id) && Judge(s.servers[id], replies(id)) == Failure
    requires id in live <==> Asked(s, id) && Judge(s.servers[id], replies(id)).Live?
    ensures WithFailure(WithoutFailures(s.servers, live.Keys), failed)[id]
         == if Asked(s, id) then Judged(s.servers[id], Judge(s.servers[id], replies(id))) else s.servers[id]
  {
    assert id in live.Keys <==> id in live;
  }

  // ---------------------------------------------------------------- row by row

  /** Of an asked server: an answer with its own port clears its failures, one with another port changes nothing. */
  ghost predicate RowRefreshed(before: Server, after: Server, reply: Reply) {
    && after.port == before.port && after.enabled == before.enabled && after.listed == before.listed
    && (if before.enabled && before.listed then
          match reply
          case Answer(status) => after.failures == if status.hostport == before.port then 0 else before.failures
          case Malformed(_) => after.failures == before.failures + 1
          case Unreachable(_) => after.failures == before.failures + 1
        else after.failures == before.failures)
  }

  /** The server is enabled and listed and answers with its own port. */
  ghost predicate AnswersAtPort(servers: map<Id, Server>, id: Id, reply: Reply) {
    && id in servers && servers[id].enabled && servers[id].listed
    && reply.Answer? && reply.status.hostport == servers[id].port
  }

  ghost predicate AllRefreshed(before: State, after: State, replies: Id -> Reply) {
    && after.servers.Keys == before.servers.Keys
    && (forall id :: id in before.servers ==> RowRefreshed(before.servers[id], after.servers[id], replies(id)))
    && (forall id :: id in after.cached <==> id in before.cached || AnswersAtPort(before.servers, id, replies(id)))
    && (forall id :: id in after.cached ==>
      after.cached[id]
      == if AnswersAtPort(before.servers, id, replies(id)) then replies(id).status else before.cached[id])
  }

  lemma RefreshedRows(s: State, replies: Id -> Reply)
    ensures AllRefreshed(s, Refreshed(s, replies), replies)
  {
    forall id ensures id in Lives(s, replies) <==> AnswersAtPort(s.servers, id, replies(id)) {}
  }

  /** The listed servers with a dozen failures or more, enabled or not, are listed and cached no longer. */
  ghost predicate AllUnlisted(before: State, after: State) {
    && after.servers.Keys == before.servers.Keys
    && (forall id :: id in before.servers ==>
      && (after.servers[id].listed <==> before.servers[id].listed && before.servers[id].failures < TOLERATED_FAILURES)
      && after.servers[id].port == before.servers[id].port && after.servers[id].enabled == before.servers[id].enabled
      && after.servers[id].failures == before.servers[id].failures)
    && (forall id :: id in after.cached <==>
      id in before.cached
      && !(id in before.servers && before.servers[id].listed && before.servers[id].failures >= TOLERATED_FAILURES))
    && forall id :: id in after.cached ==> after.cached[id] == before.cached[id]
  }

  lemma UnlistedRows(s: State)
    ensures AllUnlisted(s, Unlisted(s))
  {
  }

  class ServerManager {
    var servers: map<Id, Server>
    var cached: map<Id, Status>

    ghost function View(): State
      reads this
    {
      State(servers, cached)
    }

    constructor (rows: map<Id, Server>, statuses: map<Id, Status>)
      ensures View() == State(rows, statuses)
    {
      servers, cached := rows, statuses;
    }

    /** The servers to ask, in some order. */
    method ListedServers() returns (asked: seq<Id>)
      ensures FiniteSets.Distinct(asked) && forall id :: id in asked <==> Asked(View(), id)
      ensures forall id :: id in asked <==> id in servers && servers[id].enabled && servers[id].listed
    {
      asked := [];
      var rest := set id | id in servers && servers[id].enabled && servers[id].listed;
      while rest != {}
        invariant FiniteSets.Distinct(asked) && forall id :: id in asked ==> id !in rest
        invariant forall id :: Asked(View(), id) <==> id in rest || id in asked
      {
        var id := FiniteSets.Pick(rest);
        rest, asked := rest - {id}, asked + [id];
      }
    }

    /** Judge every reply and cache the statuses of the live servers. */
    method RefreshStatus(asked: seq<Id>, replies: Id -> Reply) returns (live: map<Id, Status>, failed: set<Id>)
      requires FiniteSets.Distinct(asked) && forall id :: id in asked ==> id in servers
      modifies this`cached
      ensures forall id :: id in failed <==> id in asked && Judge(servers[id], replies(id)) == Failure
      ensures forall id :: id in live ==> id in asked && Judge(servers[id], replies(id)) == Live(live[id])
      ensures forall id :: id in asked && Judge(servers[id], replies(id)).Live? ==> id in live
      ensures cached == old(cached) + live
    {
      live, failed := map[], {};
      for i := 0 to |asked|
        invariant forall id :: id in failed <==> id in asked[..i] && Judge(servers[id], replies(id)) == Failure
        invariant forall id :: id in live <==> id in asked[..i] && Judge(servers[id], replies(id)).Live?
        invariant forall id :: id in live ==> Judge(servers[id], replies(id)) == Live(live[id])
      {
        var id := asked[i];
        assert asked[..i + 1] == asked[..i] + [id];
        match Judge(servers[id], replies(id)) {
          case Live(status) => live := live[id := status];
          case WrongPort =>
          case Failure => failed := failed + {id};
        }
      }
      assert asked[..|asked|] == asked;
      cached := cached + live;
    }

    method ResetQueryFailures(ids: set<Id>)
      modifies this`servers
      ensures servers == WithoutFailures(old(servers), ids)
    {
      servers := map id | id in servers ::
        if id in ids && servers[id].listed && servers[id].failures > 0
        then servers[id].(failures := 0) else servers[id];
    }

    method IncrementQueryFailures(ids: set<Id>)
      modifies this`servers
      ensures servers == WithFailure(old(servers), ids)
    {
      servers := map id | id in servers ::
        if id in ids && servers[id].listed then servers[id].(failures := servers[id].failures + 1) else servers[id];
    }

    method RefreshListedServers(replies: Id -> Reply)
      modifies this
      ensures View() == Refreshed(old(View()), replies)
      ensures AllRefreshed(old(View()), View(), replies)
    {
      ghost var before := View();
      RefreshedRows(before, replies);
      var asked := ListedServers();
      var live, failed := RefreshStatus(asked, replies);
      SendSignals(live, failed);
      SignalsRefresh(before, replies, live, failed);
    }

    /** Signal the live servers, if any, and then the failed ones. */
    method SendSignals(live: map<Id, Status>, failed: set<Id>)
      modifies this`servers
      ensures servers == WithFailure(WithoutFailures(old(servers), live.Keys), failed)
    {
      NobodyTouched(servers);
      if live != map[] { ResetQueryFailures(live.Keys); }
      NobodyTouched(servers);
      if failed != {} { IncrementQueryFailures(failed); }
    }

    /** Register the server at an address: probe it, list it and cache what it answered. */
    method RegisterServer(id: Id, port: int, reply: Reply) returns (accepted: bool)
      requires id in servers ==> servers[id].port == port
      modifies this
      ensures accepted <==> Accepted(old(View()), id, port, reply)
      ensures View() == Registered(old(View()), id, port, reply)
      ensures accepted <==> reply.Answer? && reply.status.hostport == port
                            && (id in old(servers) ==> !old(servers)[id].listed)
      ensures !accepted ==> servers == old(servers) && cached == old(cached)
      ensures forall other :: other != id && other in old(servers) ==>
        other in servers && servers[other] == old(servers)[other]
      ensures accepted ==> id in servers && servers[id].listed && servers[id].failures == 0 && servers[id].port == port
      ensures accepted ==> id in cached && reply == Answer(cached[id]) && cached[id].hostport == port
    {
      if id in servers && servers[id].listed { return false; }
      if !reply.Answer? { return false; }
      if reply.status.hostport != port { return false; }
      servers := servers[id := if id in servers then servers[id].(listed := true, failures := 0)
                               else Server(port, true, true, 0)];
      cached := cached[id := reply.status];
      return true;
    }

    method UnlistFailedServers()
      modifies this
      ensures View() == Unlisted(old(View()))
      ensures AllUnlisted(old(View()), View())
    {
      ghost var before := View();
      UnlistedRows(before);
      var offline := set id | id in servers && Exceeded(servers[id]);
      assert forall id :: id in offline <==> id in servers && Exceeded(servers[id]);
      if offline != {} {
        servers := map id | id in servers ::
          if id in offline && servers[id].listed then servers[id].(listed := false) else servers[id];
        cached := map id | id in cached && id !in offline :: cached[id];
      }
      FiniteSets.MapsEqual(servers, Unlisted(before).servers);
      FiniteSets.MapsEqual(cached, Unlisted(before).cached);
    }

    /** Exactly the named servers join those listed; a server that joins starts without failures. */
    method RelistServers(ids: set<Id>)
      modifies this`servers
      ensures View() == Relisted(old(View()), ids)
      ensures forall id :: id in servers <==> id in old(servers)
      ensures forall id :: id in servers ==> (servers[id].listed <==> old(servers)[id].listed || id in ids)
      ensures forall id :: id in servers && (old(servers)[id].listed || id !in ids) ==> servers[id] == old(servers)[id]
      ensures forall id :: id in servers && !old(servers)[id].listed && id in ids ==>
        servers[id].failures == 0
        && servers[id].port == old(servers)[id].port && servers[id].enabled == old(servers)[id].enabled
    {
      servers := map id | id in servers ::
        if id in ids && !servers[id].listed then servers[id].(listed := true, failures := 0) else servers[id];
    }
  }
}
