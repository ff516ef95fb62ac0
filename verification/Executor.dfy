/** The bounded executor under any number of posting threads and workers.  Each critical section
    of executor.cpp is one step.  Tasks are numbered in the order in which they are accepted. */
module Executor {
  import opened Text

  type Task = nat
  type Worker = nat

  datatype Phase = Ready | Working(task: Task) | Exited

  /** `accepted` tasks have been queued so far; `taken` and `ran` list the tasks workers took and
      finished, in order, and `takers` who took them; `errors` the exceptions recorded, in order. */
  datatype State = State(
    capacity: nat, queue: seq<Task>, running: bool, stopping: bool, failure: Option<nat>,
    workers: map<Worker, Phase>, accepted: nat, taken: seq<Task>, takers: seq<Worker>, ran: seq<Task>, errors: seq<nat>)

  function Initial(capacity: nat): State {
    State(capacity, [], false, false, None, map[], 0, [], [], [], [])
  }

  datatype Action =
    | Start(count: nat, ok: bool)        // `count` threads came up; not ok: then one failed to
    | Post
    | Stop
    | Take(worker: Worker)               // a worker at the top of its loop
    | Finish(worker: Worker, threw: Option<nat>)
    | Join                               // returns once every worker has exited

  predicate AllExited(workers: map<Worker, Phase>) {
    forall w :: w in workers ==> workers[w].Exited?
  }

  /** Post: refused while stopping or full. */
  function PostTask(s: State): State {
    if s.stopping || |s.queue| >= s.capacity then s
    else s.(queue := s.queue + [s.accepted], accepted := s.accepted + 1)
  }

  /** One round of worker_loop up to running the task. */
  function TakeTask(s: State, w: Worker): State {
    if w !in s.workers || !s.workers[w].Ready? then s
    else if s.queue == [] then
      if s.stopping then s.(workers := s.workers[w := Exited]) else s
    else
      s.(queue := s.queue[1..], taken := s.taken + [s.queue[0]], takers := s.takers + [w],
         workers := s.workers[w := Working(s.queue[0])])
  }

  /** The task returns or throws; only the first exception is kept. */
  function FinishTask(s: State, w: Worker, threw: Option<nat>): State {
    if w !in s.workers || !s.workers[w].Working? then s
    else
      var done := s.(workers := s.workers[w := Ready], ran := s.ran + [s.workers[w].task]);
      if threw.None? then done
      else done.(errors := s.errors + [threw.value], failure := if s.failure.None? then threw else s.failure)
  }

  function ReadyWorkers(count: nat): map<Worker, Phase> {
    if count == 0 then map[] else ReadyWorkers(count - 1)[count - 1 := Ready]
  }

  lemma {:induction false} AllReady(count: nat)
    ensures forall w :: w in ReadyWorkers(count) ==> ReadyWorkers(count)[w] == Ready
  {
    if count > 0 {
      AllReady(count - 1);
    }
  }

  function Step(s: State, a: Action): State {
    match a
    case Start(count, ok) =>
      if s.running then s
      else s.(running := true, stopping := !ok, workers := ReadyWorkers(count))
    case Post => PostTask(s)
    case Stop => s.(stopping := true)
    case Take(w) => TakeTask(s, w)
    case Finish(w, threw) => FinishTask(s, w, threw)
    case Join => if AllExited(s.workers) then s.(workers := map[], running := false) else s
  }

  function Run(s: State, actions: seq<Action>): State
    decreases |actions|
  {
    if actions == [] then s else Run(Step(s, actions[0]), actions[1..])
  }

  // ----- the invariant -----

  function Range(lo: nat, hi: nat): (r: seq<Task>)
    requires lo <= hi
    ensures |r| == hi - lo && forall k :: 0 <= k < |r| ==> r[k] == lo + k
  {
    seq(hi - lo, k requires 0 <= k < hi - lo => lo + k)
  }

  /** Taken tasks, then the queue: all accepted tasks in the order they came. */
  ghost predicate Fifo(s: State) {
    && |s.taken| <= s.accepted
    && s.taken == Range(0, |s.taken|)
    && s.queue == Range(|s.taken|, s.accepted)
    && |s.queue| <= s.capacity
  }

  /** Every task taken is in the hands of the worker who took it, or has run once. */
  ghost predicate Exactly(s: State) {
    && |s.takers| == |s.taken|
    && (forall w :: w in s.workers && s.workers[w].Working? ==> InHand(s, w, s.workers[w].task))
    && (forall k :: 0 <= k < |s.ran| ==> s.ran[k] < |s.taken|)
    && (forall task :: 0 <= task < |s.takers| && task !in s.ran ==> At(s.workers, s.takers[task]) == Working(task))
    && (forall j, k :: 0 <= j < k < |s.ran| ==> s.ran[j] != s.ran[k])
  }

  ghost predicate InHand(s: State, w: Worker, task: Task) {
    task < |s.takers| && s.takers[task] == w && task !in s.ran
  }

  function At(workers: map<Worker, Phase>, w: Worker): Phase {
    if w in workers then workers[w] else Exited
  }

  /** A worker leaves only when everything has been taken and no more is accepted. */
  ghost predicate Leaves(s: State) {
    && (!s.running ==> s.workers == map[])
    && (!(s.stopping && s.queue == []) ==> forall w :: w in s.workers ==> !s.workers[w].Exited?)
  }

  ghost predicate Inv(s: State) {
    && Fifo(s) && Exactly(s) && Leaves(s)
    && s.failure == (if s.errors == [] then None else Some(s.errors[0]))
  }

  lemma PostInv(s: State)
    requires Inv(s)
    ensures Inv(PostTask(s))
  {
    var s' := PostTask(s);
    if s' != s {
      assert s'.queue == Range(|s.taken|, s.accepted + 1);
      assert Exactly(s');
    }
  }

  lemma TakeInv(s: State, w: Worker)
    requires Inv(s)
    ensures Inv(TakeTask(s, w))
  {
    var s' := TakeTask(s, w);
    if s' != s && s.queue != [] {
      var n := |s.taken|;
      assert s.queue[0] == n;
      assert s'.taken == Range(0, n + 1);
      assert s'.queue == Range(n + 1, s.accepted);
      hide Range;
      assert Exactly(s');
    }
  }

  lemma FinishInv(s: State, w: Worker, threw: Option<nat>)
    requires Inv(s)
    ensures Inv(FinishTask(s, w, threw))
  {
    var s' := FinishTask(s, w, threw);
    if s' != s {
      hide Fifo;
      assert InHand(s, w, s.workers[w].task);
      assert Exactly(s');
      assert threw.Some? && s.errors != [] ==> s'.errors[0] == s.errors[0];
    }
  }

  lemma StepInv(s: State, a: Action)
    requires Inv(s)
    ensures Inv(Step(s, a))
  {
    match a
    case Post => PostInv(s);
    case Take(w) => TakeInv(s, w);
    case Finish(w, threw) => FinishInv(s, w, threw);
    case _ => WorkersInv(s, a);
  }

  /** Starting, stopping and joining touch no task. */
  lemma WorkersInv(s: State, a: Action)
    requires Inv(s) && (a.Start? || a.Stop? || a.Join?)
    ensures Inv(Step(s, a))
  {
    if a.Start? {
      AllReady(a.count);
    }
    var s' := Step(s, a);
    hide Range;
    assert Exactly(s');
  }

  lemma {:induction false} RunInv(s: State, actions: seq<Action>)
    requires Inv(s)
    ensures Inv(Run(s, actions))
    decreases |actions|
  {
    hide Inv, Step;
    if actions != [] {
      StepInv(s, actions[0]);
      RunInv(Step(s, actions[0]), actions[1..]);
    }
  }

  /** EXECUTOR ORDER.  At every point of every interleaving: the accepted tasks are the tasks taken,
      in the order they were posted, followed by the queue, which never exceeds the capacity; no
      task runs twice; and the failure kept is the first one recorded. */
  lemma Order(capacity: nat, actions: seq<Action>)
    ensures var s := Run(Initial(capacity), actions);
            && Range(0, s.accepted) == s.taken + s.queue
            && |s.queue| <= capacity
            && (forall j, k :: 0 <= j < k < |s.ran| ==> s.ran[j] != s.ran[k])
            && s.failure == (if s.errors == [] then None else Some(s.errors[0]))
  {
    RunInv(Initial(capacity), actions);
    CapacityFixed(Initial(capacity), actions);
    var s := Run(Initial(capacity), actions);
    assert Range(0, s.accepted) == s.taken + s.queue;
  }

  lemma {:induction false} CapacityFixed(s: State, actions: seq<Action>)
    ensures Run(s, actions).capacity == s.capacity
    decreases |actions|
  {
    if actions != [] {
      CapacityFixed(Step(s, actions[0]), actions[1..]);
    }
  }

  /** When join returns on an executor that had a worker, every task ever accepted has run, exactly
      once, whatever other tasks threw. */
  lemma JoinedMeansDone(capacity: nat, actions: seq<Action>)
    requires var s := Run(Initial(capacity), actions);
             s.workers != map[] && AllExited(s.workers)
    ensures var s := Run(Initial(capacity), actions);
            && Step(s, Join).workers == map[]
            && |s.ran| == s.accepted
            && (forall task: nat :: task < s.accepted <==> task in s.ran)
  {
    RunInv(Initial(capacity), actions);
    var s := Run(Initial(capacity), actions);
    hide Run;
    var w :| w in s.workers;
    assert s.workers[w].Exited?;
    assert |s.taken| == s.accepted;
    forall task: nat ensures task < s.accepted <==> task in s.ran {
      if task < s.accepted {
        assert At(s.workers, s.takers[task]).Exited?;
      }
    }
    CountAll(s.ran, s.accepted);
  }

  /** A list without repetition of exactly the numbers below n has length n. */
  lemma {:induction false} CountAll(ran: seq<Task>, n: nat)
    requires forall j, k :: 0 <= j < k < |ran| ==> ran[j] != ran[k]
    requires forall task: nat :: task < n <==> task in ran
    ensures |ran| == n
  {
    assert ran != [] ==> ran[0] in ran;
    if n > 0 {
      var last: nat := n - 1;
      assert last in ran;
      var i :| 0 <= i < |ran| && ran[i] == last;
      var others := ran[..i] + ran[i + 1..];
      forall task: nat ensures task < last <==> task in others {
        if task < last {
          assert task in ran;
          var k :| 0 <= k < |ran| && ran[k] == task;
          assert others[if k < i then k else k - 1] == task;
        }
        if task in others {
          assert task in ran && task != last;
        }
      }
      CountAll(others, last);
    }
  }

  // ----- the executor object -----

  class BoundedExecutor {
    const capacity: nat
    var queue: seq<Task>
    var running: bool
    var stopping: bool
    var failure: Option<nat>
    var workers: map<Worker, Phase>
    var accepted: nat
    var taken: seq<Task>
    var takers: seq<Worker>
    var ran: seq<Task>
    var errors: seq<nat>

    ghost function Now(): State
      reads this
    {
      State(capacity, queue, running, stopping, failure, workers, accepted, taken, takers, ran, errors)
    }

    constructor (capacity: nat)
      ensures Now() == Initial(capacity)
    {
      this.capacity := capacity;
      queue, running, stopping, failure, workers := [], false, false, None, map[];
      accepted, taken, takers, ran, errors := 0, [], [], [], [];
    }

    /** Threads come up one by one; if one cannot be created the executor stops at once. */
    method StartWorkers(count: nat, ok: bool)
      modifies this
      ensures Now() == Step(old(Now()), Start(count, ok))
    {
      if running { return; }
      stopping, running := false, true;
      var started: map<Worker, Phase> := map[];
      for w := 0 to count
        invariant started == ReadyWorkers(w)
      {
        started := started[w := Ready];
      }
      workers := started;
      if !ok { stopping := true; }
    }

    method PostWork() returns (refused: bool)
      modifies this
      ensures Now() == Step(old(Now()), Post)
      ensures refused <==> old(stopping) || |old(queue)| >= capacity
    {
      if stopping || |queue| >= capacity { return true; }
      queue, accepted := queue + [accepted], accepted + 1;
      return false;
    }

    method StopWorkers()
      modifies this
      ensures Now() == Step(old(Now()), Stop)
    {
      stopping := true;
    }

    method TakeWork(w: Worker)
      modifies this
      ensures Now() == Step(old(Now()), Take(w))
    {
      if w !in workers || !workers[w].Ready? { return; }
      if queue == [] {
        if stopping { workers := workers[w := Exited]; }
        return;
      }
      var work := queue[0];
      queue, taken, takers, workers := queue[1..], taken + [work], takers + [w], workers[w := Working(work)];
    }

    method FinishWork(w: Worker, threw: Option<nat>)
      modifies this
      ensures Now() == Step(old(Now()), Finish(w, threw))
    {
      if w !in workers || !workers[w].Working? { return; }
      ran, workers := ran + [workers[w].task], workers[w := Ready];
      if threw.Some? {
        errors := errors + [threw.value];
        if failure.None? { failure := threw; }
      }
    }
  }
}
