/**
 Runs of refreshes, unlistings, relistings, registrations, discoveries and merges that disable servers: what the
 rows and the status cache hold is determined by what has happened to each server, and only a long streak of
 failures unlists one.
 */
module ListingRuns {
  import opened Wrappers
  import opened ServerListing
  import Text

  datatype Event =
    | Refresh(replies: Id -> Reply)
    | Unlist
    | Relist(ids: set<Id>)
    | Register(id: Id, port: int, reply: Reply)
    | Discover(id: Id, port: int)
    | Disable(id: Id)

  function Next(s: State, event: Event): State {
    match event
    case Refresh(replies) => Refreshed(s, replies)
    case Unlist => Unlisted(s)
    case Relist(ids) => Relisted(s, ids)
    case Register(id, port, reply) => Registered(s, id, port, reply)
    case Discover(id, port) => Discovered(s, id, port)
    case Disable(id) =>
      if id !in s.servers then s else s.(servers := s.servers[id := s.servers[id].(enabled := false)])
  }

  /** From no servers at all. */
  function Run(events: seq<Event>): State {
    if events == [] then State(map[], map[])
    else Next(Run(events[..|events| - 1]), events[|events| - 1])
  }

  /** What an event means for one server. */
  datatype Seen = Replied(status: Status) | Missed | Joined(probed: Option<Status>) | Dropped | Nothing

  predicate ListedIn(s: State, id: Id) {
    id in s.servers && s.servers[id].listed
  }

  function Observe(s: State, event: Event, id: Id): Seen {
    match event
    case Refresh(replies) =>
      if !Asked(s, id) then Nothing
      else (
        match Judge(s.servers[id], replies(id))
        case Live(status) => Replied(status)
        case WrongPort => Nothing
        case Failure => Missed)
    case Unlist => if ListedIn(s, id) && !ListedIn(Unlisted(s), id) then Dropped else Nothing
    case Relist(ids) => if id in ids && id in s.servers && !s.servers[id].listed then Joined(None) else Nothing
    case Register(added, port, reply) =>
      if id == added && Accepted(s, id, port, reply) then Joined(Some(reply.status)) else Nothing
    case Discover(_, _) => Nothing
    case Disable(_) => Nothing
  }

  /** A server's history: what each event of the run has meant for it. */
  function History(events: seq<Event>, id: Id): (history: seq<Seen>)
    ensures |history| == |events|
  {
    if events == [] then []
    else
      var n := |events| - 1;
      History(events[..n], id) + [Observe(Run(events[..n]), events[n], id)]
  }

  predicate StartsAfresh(seen: Seen) {
    seen.Replied? || seen.Joined?
  }

  /** The misses after the last reply or listing. */
  function Streak(history: seq<Seen>): nat {
    if history == [] then 0
    else
      var n := |history| - 1;
      if StartsAfresh(history[n]) then 0
      else Streak(history[..n]) + if history[n].Missed? then 1 else 0
  }

  function Misses(history: seq<Seen>): nat {
    if history == [] then 0
    else Misses(history[..|history| - 1]) + if history[|history| - 1].Missed? then 1 else 0
  }

  /** The streak counts the misses of the stretch that follows the last reply or listing. */
  lemma {:induction false} StreakIsSinceFresh(history: seq<Seen>) returns (k: nat)
    ensures k <= |history| && (k > 0 ==> StartsAfresh(history[k - 1]))
    ensures forall i :: k <= i < |history| ==> !StartsAfresh(history[i])
    ensures Streak(history) == Misses(history[k..])
  {
    if history == [] {
      k := 0;
    } else {
      var n := |history| - 1;
      if StartsAfresh(history[n]) {
        k := n + 1;
        assert history[k..] == [];
      } else {
        k := StreakIsSinceFresh(history[..n]);
        assert history[k..][..n - k] == history[..n][k..];
        assert forall i :: k <= i < n ==> history[i] == history[..n][i];
      }
    }
  }

  /** Whether the last listing or unlisting listed the server. */
  predicate ListedBy(history: seq<Seen>) {
    history != []
    && var n := |history| - 1;
       history[n].Joined? || (!history[n].Dropped? && ListedBy(history[..n]))
  }

  /** The last reply, to a refresh or to the probe of a registration, unless the server has been unlisted since. */
  function LastReply(history: seq<Seen>): Option<Status> {
    if history == [] then None
    else
      var n := |history| - 1;
      match history[n]
      case Replied(status) => Some(status)
      case Joined(probed) => if probed.Some? then probed else LastReply(history[..n])
      case Dropped => None
      case _ => LastReply(history[..n])
  }

  function CachedFor(s: State, id: Id): Option<Status> {
    if id in s.cached then Some(s.cached[id]) else None
  }

  /** The rows and the cache say what the history says. */
  ghost predicate Faithful(s: State, id: Id, history: seq<Seen>) {
    (ListedIn(s, id) <==> ListedBy(history))
    && (ListedIn(s, id) ==> s.servers[id].failures == Streak(history))
    && CachedFor(s, id) == LastReply(history)
    && (id in s.cached ==> ListedIn(s, id))
  }

  lemma StepFaithful(s: State, event: Event, id: Id, history: seq<Seen>)
    requires Faithful(s, id, history)
    ensures Faithful(Next(s, event), id, history + [Observe(s, event, id)])
  {
    if event.Refresh? {
      var replies := event.replies;
      assert id in Lives(s, replies) <==> Asked(s, id) && Judge(s.servers[id], replies(id)).Live?;
    }
    FaithfulAfter(s, Next(s, event), id, history, Observe(s, event, id));
  }

  /** What an observation changes in the rows and in the cache. */
  ghost predicate Changes(s: State, t: State, id: Id, seen: Seen) {
    match seen
    case Replied(status) =>
      ListedIn(s, id) && ListedIn(t, id) && t.servers[id].failures == 0 && CachedFor(t, id) == Some(status)
    case Missed =>
      ListedIn(s, id) && ListedIn(t, id) && t.servers[id].failures == s.servers[id].failures + 1
      && CachedFor(t, id) == CachedFor(s, id)
    case Joined(probed) =>
      !ListedIn(s, id) && ListedIn(t, id) && t.servers[id].failures == 0
      && CachedFor(t, id) == if probed.Some? then probed else CachedFor(s, id)
    case Dropped => !ListedIn(t, id) && CachedFor(t, id) == None
    case Nothing =>
      (ListedIn(t, id) <==> ListedIn(s, id)) && CachedFor(t, id) == CachedFor(s, id)
      && (ListedIn(t, id) ==> t.servers[id].failures == s.servers[id].failures)
  }

  lemma FaithfulAfter(s: State, t: State, id: Id, history: seq<Seen>, seen: Seen)
    requires Faithful(s, id, history) && Changes(s, t, id, seen)
    ensures Faithful(t, id, history + [seen])
  {
    Text.Init(history, seen);
  }

  /**
   After any run: a listed server's failures are exactly its streak, the cache holds exactly its last reply, and
   only listed servers have a cached status.
   */
  lemma {:induction false} RunFaithful(events: seq<Event>, id: Id)
    ensures Faithful(Run(events), id, History(events, id))
  {
    if events != [] {
      var n := |events| - 1;
      RunFaithful(events[..n], id);
      StepFaithful(Run(events[..n]), events[n], id, History(events[..n], id));
    }
  }

  /** The unlisting task drops exactly the listed servers whose streak has reached the tolerance, with their status. */
  lemma UnlistIffStreak(events: seq<Event>, id: Id)
    ensures var s, history := Run(events), History(events, id);
            && (Observe(s, Unlist, id) == Dropped <==> ListedBy(history) && Streak(history) >= TOLERATED_FAILURES)
            && (Observe(s, Unlist, id) == Dropped ==> id !in Next(s, Unlist).cached)
  {
    RunFaithful(events, id);
  }

  lemma {:induction false} HistoryOfPrefix(events: seq<Event>, id: Id, i: nat)
    requires i <= |events|
    ensures History(events, id)[..i] == History(events[..i], id)
  {
    if i < |events| {
      var n := |events| - 1;
      HistoryOfPrefix(events[..n], id, i);
      Text.PrefixOfPrefix(events, n, i);
      Text.PrefixOfAppend(History(events[..n], id), Observe(Run(events[..n]), events[n], id), i);
    } else {
      Text.FullPrefix(events);
      Text.FullPrefix(History(events, id));
    }
  }

  lemma HistoryAt(events: seq<Event>, id: Id, i: nat)
    requires i < |events|
    ensures History(events, id)[i] == Observe(Run(events[..i]), events[i], id)
  {
    HistoryOfPrefix(events, id, i + 1);
    Text.PrefixOfPrefix(events, i + 1, i);
    assert History(events, id)[i] == History(events[..i + 1], id)[i];
  }

  /** Whenever in a run a server loses its listing, it had missed too many refreshes since it last answered. */
  lemma DroppedOnlyAfterStreak(events: seq<Event>, id: Id, i: nat)
    requires i < |events| && ListedIn(Run(events[..i]), id) && !ListedIn(Run(events[..i + 1]), id)
    ensures events[i].Unlist? && History(events, id)[i] == Dropped
    ensures Streak(History(events, id)[..i]) >= TOLERATED_FAILURES
    ensures id !in Run(events[..i + 1]).cached
  {
    var before := events[..i];
    assert events[..i + 1][..i] == before;
    HistoryOfPrefix(events, id, i);
    HistoryAt(events, id, i);
    RunFaithful(before, id);
    RunFaithful(events[..i + 1], id);
    UnlistIffStreak(before, id);
  }
}
