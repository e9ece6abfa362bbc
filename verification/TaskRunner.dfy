/**
 Running many tasks under a semaphore, as a state machine over its steps: a task takes a permit, reports its
 result or its exception to its callback, and gives the permit back.  The event loop may pick any enabled step.
 */
module TaskRunner {
  import opened Wrappers
  import FiniteSets

  datatype Stage = Waiting | Running | Reported | Finished

  datatype Call<R> = Call(task: nat, outcome: R)

  /** `permits` is None when tasks run without a semaphore; `fired` lists the callbacks in the order they ran. */
  datatype State<R> = State(permits: Option<int>, stages: seq<Stage>, fired: seq<Call<R>>)

  datatype Step<R> = Acquire(task: nat) | Report(task: nat, outcome: R) | Release(task: nat)

  /** A concurrency of none and of zero both mean: no semaphore. */
  function Permits(concurrency: Option<nat>): Option<int> {
    if concurrency.None? || concurrency.value == 0 then None else Some(concurrency.value)
  }

  function Initial<R>(n: nat, concurrency: Option<nat>): State<R> {
    State(Permits(concurrency), seq(n, _ => Waiting), [])
  }

  predicate Enabled<R>(s: State<R>, step: Step<R>) {
    step.task < |s.stages|
    && match step
       case Acquire(i) => s.stages[i] == Waiting && (s.permits.Some? ==> s.permits.value > 0)
       case Report(i, _) => s.stages[i] == Running
       case Release(i) => s.stages[i] == Reported
  }

  function Adjusted(permits: Option<int>, delta: int): Option<int> {
    if permits.None? then None else Some(permits.value + delta)
  }

  function After<R>(s: State<R>, step: Step<R>): State<R>
    requires Enabled(s, step)
  {
    match step
    case Acquire(i) => State(Adjusted(s.permits, -1), s.stages[i := Running], s.fired)
    case Report(i, outcome) => State(s.permits, s.stages[i := Reported], s.fired + [Call(i, outcome)])
    case Release(i) => State(Adjusted(s.permits, 1), s.stages[i := Finished], s.fired)
  }

  /** Each step of the schedule is enabled when its turn comes. */
  predicate Legal<R>(s: State<R>, schedule: seq<Step<R>>)
    decreases |schedule|
  {
    schedule == [] || (Enabled(s, schedule[0]) && Legal(After(s, schedule[0]), schedule[1..]))
  }

  function Final<R>(s: State<R>, schedule: seq<Step<R>>): State<R>
    requires Legal(s, schedule)
    decreases |schedule|
  {
    if schedule == [] then s else Final(After(s, schedule[0]), schedule[1..])
  }

  /** The tasks between taking their permit and giving it back. */
  function Holding<R>(s: State<R>): set<nat> {
    set i: nat | i < |s.stages| && s.stages[i] in {Running, Reported}
  }

  function Calls<R>(fired: seq<Call<R>>, task: nat): nat {
    if fired == [] then 0
    else Calls(fired[..|fired| - 1], task) + if fired[|fired| - 1].task == task then 1 else 0
  }

  ghost predicate PermitsConserved<R>(s: State<R>, concurrency: Option<nat>) {
    match Permits(concurrency)
    case None => s.permits.None?
    case Some(c) => s.permits.Some? && s.permits.value >= 0 && s.permits.value + |Holding(s)| == c
  }

  /** Callbacks ran once for each task that has reported, and for no other. */
  ghost predicate CallsMatch<R>(s: State<R>) {
    forall i: nat :: Calls(s.fired, i) == if i < |s.stages| && s.stages[i] in {Reported, Finished} then 1 else 0
  }

  ghost predicate Sound<R>(s: State<R>, n: nat, concurrency: Option<nat>) {
    |s.stages| == n && PermitsConserved(s, concurrency) && CallsMatch(s)
  }

  lemma InitiallySound<R>(n: nat, concurrency: Option<nat>)
    ensures Sound(Initial<R>(n, concurrency), n, concurrency)
  {
    assert Holding(Initial<R>(n, concurrency)) == {};
  }

  /** Taking a permit adds one holder, giving it back removes one, and reporting leaves the holders alone. */
  lemma HoldersAfter<R>(s: State<R>, step: Step<R>)
    requires Enabled(s, step)
    ensures step.Acquire? ==> step.task !in Holding(s) && Holding(After(s, step)) == Holding(s) + {step.task}
    ensures step.Report? ==> Holding(After(s, step)) == Holding(s)
    ensures step.Release? ==> step.task in Holding(s) && Holding(After(s, step)) == Holding(s) - {step.task}
  {
  }

  lemma CallsAfter<R>(s: State<R>, step: Step<R>)
    requires Enabled(s, step) && CallsMatch(s)
    ensures CallsMatch(After(s, step))
  {
    var t := After(s, step);
    if step.Report? {
      assert t.fired[..|t.fired| - 1] == s.fired;
    }
    forall i: nat
      ensures Calls(t.fired, i) == if i < |t.stages| && t.stages[i] in {Reported, Finished} then 1 else 0
    {
      assert Calls(s.fired, i) == if i < |s.stages| && s.stages[i] in {Reported, Finished} then 1 else 0;
    }
  }

  lemma StepKeepsSound<R>(s: State<R>, step: Step<R>, n: nat, concurrency: Option<nat>)
    requires Sound(s, n, concurrency) && Enabled(s, step)
    ensures Sound(After(s, step), n, concurrency)
  {
    HoldersAfter(s, step);
    CallsAfter(s, step);
  }

  /** Under any schedule permits and holders add up to the concurrency, and callbacks match the tasks that reported. */
  lemma {:induction false} RunStaysSound<R>(s: State<R>, schedule: seq<Step<R>>, n: nat, concurrency: Option<nat>)
    requires Sound(s, n, concurrency) && Legal(s, schedule)
    ensures Sound(Final(s, schedule), n, concurrency)
    decreases |schedule|
  {
    if schedule != [] {
      StepKeepsSound(s, schedule[0], n, concurrency);
      RunStaysSound(After(s, schedule[0]), schedule[1..], n, concurrency);
    }
  }

  function Left(stage: Stage): nat {
    match stage
    case Waiting => 3
    case Running => 2
    case Reported => 1
    case Finished => 0
  }

  /** The steps still to come. */
  function StepsLeft(stages: seq<Stage>): nat {
    if stages == [] then 0 else Left(stages[0]) + StepsLeft(stages[1..])
  }

  lemma {:induction false} StepsLeftUpdate(stages: seq<Stage>, i: nat, stage: Stage)
    requires i < |stages|
    ensures StepsLeft(stages[i := stage]) == StepsLeft(stages) - Left(stages[i]) + Left(stage)
  {
    if i == 0 {
      assert stages[0 := stage][1..] == stages[1..];
    } else {
      assert stages[i := stage][1..] == stages[1..][i - 1 := stage];
      StepsLeftUpdate(stages[1..], i - 1, stage);
    }
  }

  /** No steps are left exactly when every task has finished; all three are left while every task waits. */
  lemma {:induction false} StepsLeftBounds(stages: seq<Stage>)
    ensures StepsLeft(stages) == 0 <==> forall i :: 0 <= i < |stages| ==> stages[i] == Finished
    ensures (forall i :: 0 <= i < |stages| ==> stages[i] == Waiting) ==> StepsLeft(stages) == 3 * |stages|
  {
    if stages != [] {
      StepsLeftBounds(stages[1..]);
      assert stages == [stages[0]] + stages[1..];
    }
  }

  lemma {:induction false} RunCountsDown<R>(s: State<R>, schedule: seq<Step<R>>)
    requires Legal(s, schedule)
    ensures StepsLeft(Final(s, schedule).stages) == StepsLeft(s.stages) - |schedule|
    decreases |schedule|
  {
    if schedule != [] {
      var step := schedule[0];
      StepsLeftUpdate(s.stages, step.task, After(s, step).stages[step.task]);
      RunCountsDown(After(s, step), schedule[1..]);
    }
  }

  /** While some task has not finished, some step is enabled: the semaphore never deadlocks. */
  lemma NeverStuck<R>(s: State<R>, n: nat, concurrency: Option<nat>, outcome: R) returns (step: Step<R>)
    requires Sound(s, n, concurrency) && StepsLeft(s.stages) > 0
    ensures Enabled(s, step) && (step.Report? ==> step.outcome == outcome)
  {
    StepsLeftBounds(s.stages);
    var i: nat :| i < |s.stages| && s.stages[i] != Finished;
    if Holding(s) == {} {
      assert i !in Holding(s);
      step := Acquire(i);
    } else {
      var h := FiniteSets.Member(Holding(s));
      step := if s.stages[h] == Running then Report(h, outcome) else Release(h);
    }
  }

  ghost predicate Settled<R(!new)>(s: State<R>) {
    forall step :: !Enabled(s, step)
  }

  ghost predicate AllFinished<R>(s: State<R>) {
    forall i :: 0 <= i < |s.stages| ==> s.stages[i] == Finished
  }

  /**
   Every run of n tasks under every schedule: it takes at most 3n steps; it can go on unless it has taken them all;
   it then has fired each callback exactly once, and at no point have more tasks run than the concurrency allows.
   */
  lemma RunManySettles<R(!new)>(n: nat, concurrency: Option<nat>, schedule: seq<Step<R>>, outcome: R)
    requires Legal(Initial(n, concurrency), schedule)
    ensures var end := Final(Initial(n, concurrency), schedule);
            && |schedule| <= 3 * n
            && (Permits(concurrency).Some? ==> |Holding(end)| <= concurrency.value)
            && (|schedule| == 3 * n <==> Settled(end))
            && (Settled(end) <==> AllFinished(end))
            && (Settled(end) ==> forall i: nat :: Calls(end.fired, i) == if i < n then 1 else 0)
  {
    var start := Initial<R>(n, concurrency);
    var end := Final(start, schedule);
    InitiallySound<R>(n, concurrency);
    RunStaysSound(start, schedule, n, concurrency);
    RunCountsDown(start, schedule);
    StepsLeftBounds(start.stages);
    StepsLeftBounds(end.stages);
    if StepsLeft(end.stages) > 0 {
      var step := NeverStuck(end, n, concurrency, outcome);
    }
  }

  /** What a callback that stores its argument has stored for a task. */
  function Stored<R>(fired: seq<Call<R>>, task: nat): Option<R> {
    if fired == [] then None
    else
      var last := fired[|fired| - 1];
      if last.task == task then Some(last.outcome) else Stored(fired[..|fired| - 1], task)
  }

  /** A callback that ran once stored the one outcome its task reported; one that never ran stored nothing. */
  lemma {:induction false} StoredIfCalled<R>(fired: seq<Call<R>>, task: nat)
    ensures Calls(fired, task) == 0 <==> Stored(fired, task).None?
    ensures Calls(fired, task) == 1 ==>
      forall outcome :: Call(task, outcome) in fired <==> Stored(fired, task) == Some(outcome)
    ensures Calls(fired, task) == 0 ==> forall c :: c in fired ==> c.task != task
  {
    if fired != [] {
      var n := |fired| - 1;
      StoredIfCalled(fired[..n], task);
      assert fired == fired[..n] + [fired[n]];
    }
  }
}
