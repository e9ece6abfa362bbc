/**
 Querying many servers at once: every server asked about ends with a reply or an exception, in the order asked.
 */
module StatusFetching {
  import opened Wrappers
  import opened TaskRunner
  import FiniteSets

  /** The first occurrence of each entry, in order: the keys of an ordered dictionary filled from the list. */
  function Unique<T(==)>(xs: seq<T>): seq<T> {
    if xs == [] then []
    else
      var n := |xs| - 1;
      Unique(xs[..n]) + if xs[n] in xs[..n] then [] else [xs[n]]
  }

  function FirstAt<T(==)>(xs: seq<T>, x: T): (i: nat)
    requires x in xs
    ensures i < |xs| && xs[i] == x && x !in xs[..i]
  {
    if xs[0] == x then 0 else FirstAt(xs[1..], x) + 1
  }

  lemma FirstAtIs<T>(xs: seq<T>, x: T, i: nat)
    requires i < |xs| && xs[i] == x && x !in xs[..i]
    ensures FirstAt(xs, x) == i
  {
    var f := FirstAt(xs, x);
    assert forall k :: 0 <= k < i ==> xs[..i][k] != x;
    assert forall k :: 0 <= k < f ==> xs[..f][k] != x;
    assert forall k :: 0 <= k < i ==> xs[k] == xs[..i][k];
    assert forall k :: 0 <= k < f ==> xs[k] == xs[..f][k];
  }

  lemma {:induction false} UniqueKeepsOrder<T(!new)>(xs: seq<T>)
    ensures FiniteSets.Distinct(Unique(xs)) && forall x :: x in Unique(xs) <==> x in xs
    ensures forall i, j :: 0 <= i < j < |Unique(xs)| ==> FirstAt(xs, Unique(xs)[i]) < FirstAt(xs, Unique(xs)[j])
  {
    if xs != [] {
      var n := |xs| - 1;
      var init, u := xs[..n], Unique(xs);
      UniqueKeepsOrder(init);
      assert xs == init + [xs[n]];
      forall x | x in init ensures FirstAt(xs, x) == FirstAt(init, x) {
        assert xs[..FirstAt(init, x)] == init[..FirstAt(init, x)];
        FirstAtIs(xs, x, FirstAt(init, x));
      }
      if xs[n] !in init {
        FirstAtIs(xs, xs[n], n);
        forall i | 0 <= i < |Unique(init)| ensures u[i] in init {
          assert u[i] == Unique(init)[i];
        }
      }
    }
  }

  /** The results dictionary holds what the callbacks have stored. */
  ghost predicate Recorded<Server(!new), R>(order: seq<Server>, results: map<Server, Option<R>>, fired: seq<Call<R>>) {
    results.Keys == FiniteSets.SetOf(order)
    && forall i :: 0 <= i < |order| ==> results[order[i]] == Stored(fired, i)
  }

  lemma StoredStep<Server(!new), R>(order: seq<Server>, results: map<Server, Option<R>>, fired: seq<Call<R>>,
                                    call: Call<R>)
    requires FiniteSets.Distinct(order) && Recorded(order, results, fired) && call.task < |order|
    ensures Recorded(order, results[order[call.task] := Some(call.outcome)], fired + [call])
  {
    assert (fired + [call])[..|fired|] == fired;
  }

  /** The callbacks that fired are those the schedule's report steps fire. */
  ghost predicate FiredBy<R(!new)>(fired: seq<Call<R>>, schedule: seq<Step<R>>) {
    forall i: nat, outcome :: Call(i, outcome) in fired <==> Report(i, outcome) in schedule
  }

  /** The first j steps of the schedule have been taken. */
  ghost predicate Taken<R(!new)>(start: State<R>, schedule: seq<Step<R>>, j: nat, state: State<R>)
    requires j <= |schedule| && Legal(start, schedule)
  {
    && Legal(state, schedule[j..]) && Final(state, schedule[j..]) == Final(start, schedule)
    && |state.stages| == |start.stages| && FiredBy(state.fired, schedule[..j])
  }

  lemma TakeOne<R(!new)>(start: State<R>, schedule: seq<Step<R>>, j: nat, state: State<R>)
    requires j < |schedule| && Legal(start, schedule) && Taken(start, schedule, j, state)
    ensures Enabled(state, schedule[j]) && Taken(start, schedule, j + 1, After(state, schedule[j]))
  {
    assert schedule[j..][0] == schedule[j] && schedule[j..][1..] == schedule[j + 1..];
    assert schedule[..j + 1] == schedule[..j] + [schedule[j]];
  }

  lemma TakenAll<R(!new)>(start: State<R>, schedule: seq<Step<R>>, state: State<R>)
    requires Legal(start, schedule) && Taken(start, schedule, |schedule|, state)
    ensures state == Final(start, schedule) && FiredBy(state.fired, schedule)
  {
    assert schedule[..|schedule|] == schedule;
  }

  /** The keys of the ordered dictionary. */
  method Deduplicated<Server(==,!new)>(servers: seq<Server>) returns (order: seq<Server>)
    ensures order == Unique(servers)
  {
    order := [];
    for i := 0 to |servers|
      invariant order == Unique(servers[..i])
    {
      assert servers[..i + 1][..i] == servers[..i];
      UniqueKeepsOrder(servers[..i]);
      if servers[i] !in order {
        order := order + [servers[i]];
      }
    }
    assert servers[..|servers|] == servers;
  }

  /**
   Ask every server under any schedule of the event loop, until no step is left to take.  Each distinct server,
   in the order given, ends with exactly the outcome its own task reported.
   */
  method FetchStatus<Server(==,!new), R(00,!new)>(servers: seq<Server>, concurrency: Option<nat>,
                                                  schedule: seq<Step<R>>)
    returns (order: seq<Server>, results: map<Server, Option<R>>)
    requires Legal(Initial(|Unique(servers)|, concurrency), schedule)
    requires Settled(Final(Initial(|Unique(servers)|, concurrency), schedule))
    ensures order == Unique(servers) && results.Keys == FiniteSets.SetOf(servers) == FiniteSets.SetOf(order)
    ensures forall i :: 0 <= i < |order| ==> results[order[i]].Some?
    ensures forall i, outcome :: 0 <= i < |order| ==>
      (results[order[i]] == Some(outcome) <==> Report(i, outcome) in schedule)
  {
    order := Deduplicated(servers);
    UniqueKeepsOrder(servers);
    results := map server | server in order :: None;
    var state := Initial<R>(|order|, concurrency);
    ghost var start := state;
    for j := 0 to |schedule|
      invariant Taken(start, schedule, j, state) && Recorded(order, results, state.fired)
    {
      var step := schedule[j];
      TakeOne(start, schedule, j, state);
      if step.Report? {
        StoredStep(order, results, state.fired, Call(step.task, step.outcome));
        results := results[order[step.task] := Some(step.outcome)];
      }
      state := After(state, step);
    }
    TakenAll(start, schedule, state);
    AllRecorded(|order|, concurrency, schedule, order, results);
  }

  lemma AllRecorded<Server(!new), R(00,!new)>(
    n: nat, concurrency: Option<nat>, schedule: seq<Step<R>>, order: seq<Server>, results: map<Server, Option<R>>)
    requires n == |order| && Legal(Initial(n, concurrency), schedule)
    requires Settled(Final(Initial(n, concurrency), schedule))
    requires Recorded(order, results, Final(Initial(n, concurrency), schedule).fired)
    requires FiredBy(Final(Initial(n, concurrency), schedule).fired, schedule)
    ensures forall i :: 0 <= i < |order| ==> results[order[i]].Some?
    ensures forall i, outcome :: 0 <= i < |order| ==>
      (results[order[i]] == Some(outcome) <==> Report(i, outcome) in schedule)
  {
    var end := Final(Initial(n, concurrency), schedule);
    var some: R :| true;
    RunManySettles(n, concurrency, schedule, some);
    forall i, outcome | 0 <= i < |order|
      ensures (results[order[i]] == Some(outcome) <==> Report(i, outcome) in schedule)
    {
      assert Calls(end.fired, i) == 1;
      StoredIfCalled(end.fired, i);
    }
    forall i | 0 <= i < |order| ensures results[order[i]].Some? {
      assert Calls(end.fired, i) == 1;
      StoredIfCalled(end.fired, i);
    }
  }
}
