/** That the executor gets on with it: a start brings the workers up, posts are taken while there is room, and any
    one worker left to itself runs all that is queued, in order, and leaves exactly when told to stop. */
module ExecutorDrains {
  import opened Text
  import opened Executor

  /** A START that succeeds has `count` idle workers and takes posts; one that fails takes none; a running executor
      does not notice. */
  lemma StartMeans(s: State, count: nat, ok: bool)
    ensures s.running ==> Step(s, Start(count, ok)) == s
    ensures !s.running ==>
              var t := Step(s, Start(count, ok));
              && (forall w :: w in t.workers <==> 0 <= w < count) && (forall w :: w in t.workers ==> t.workers[w] == Ready)
              && t == s.(running := true, stopping := !ok, workers := t.workers)
              && (ok && |s.queue| < s.capacity ==> Step(t, Post).queue == s.queue + [s.accepted])
              && (!ok ==> Step(t, Post) == t)
  {
    WorkerKeys(count);
    AllReady(count);
    hide ReadyWorkers;
  }

  lemma {:induction false} WorkerKeys(count: nat)
    ensures forall w :: w in ReadyWorkers(count) <==> 0 <= w < count
  {
    if count > 0 {
      WorkerKeys(count - 1);
    }
  }

  /** One worker's rounds: take a task, run it. */
  function Rounds(w: Worker, n: nat): seq<Action> {
    if n == 0 then [] else [Take(w), Finish(w, None)] + Rounds(w, n - 1)
  }

  lemma RunTwo(s: State, a: Action, b: Action, rest: seq<Action>)
    ensures Run(s, [a, b] + rest) == Run(Step(Step(s, a), b), rest)
  {
    hide Step;
    var all := [a, b] + rest;
    assert all[0] == a && all[1..] == [b] + rest && ([b] + rest)[1..] == rest;
  }

  lemma OneRound(s: State, w: Worker)
    requires w in s.workers && s.workers[w].Ready? && s.queue != []
    ensures var t := Step(Step(s, Take(w)), Finish(w, None));
            && t.queue == s.queue[1..] && t.ran == s.ran + [s.queue[0]] && t.taken == s.taken + [s.queue[0]]
            && t.workers == s.workers && t.stopping == s.stopping && t.errors == s.errors && t.failure == s.failure
  {
    assert s.workers[w := Ready] == s.workers;
  }

  /** ANY WORKER DRAINS THE QUEUE.  Left to itself, an idle worker runs everything queued, in order; then it leaves if
      the executor is stopping and waits if not. */
  lemma {:induction false} WorkerDrains(s: State, w: Worker)
    requires w in s.workers && s.workers[w].Ready?
    ensures var t := Run(s, Rounds(w, |s.queue|));
            && t.queue == [] && t.ran == s.ran + s.queue && t.taken == s.taken + s.queue
            && t.workers == s.workers && t.stopping == s.stopping && t.errors == s.errors && t.failure == s.failure
            && Step(t, Take(w)) == if s.stopping then t.(workers := t.workers[w := Exited]) else t
    decreases |s.queue|
  {
    if s.queue == [] {
      assert s.ran + s.queue == s.ran && s.taken + s.queue == s.taken;
    } else {
      hide Run, Step;
      var u := Step(Step(s, Take(w)), Finish(w, None));
      OneRound(s, w);
      RunTwo(s, Take(w), Finish(w, None), Rounds(w, |s.queue| - 1));
      WorkerDrains(u, w);
      assert s.ran + [s.queue[0]] + s.queue[1..] == s.ran + s.queue;
      assert s.taken + [s.queue[0]] + s.queue[1..] == s.taken + s.queue;
    }
  }

  /** The first exception is the one reported, and no exception stops a worker. */
  lemma ThrowsKept(s: State, w: Worker, error: nat)
    requires w in s.workers && s.workers[w].Working?
    ensures var t := Step(s, Finish(w, Some(error)));
            t.workers == s.workers[w := Ready] && t.failure == if s.failure.Some? then s.failure else Some(error)
  {
  }

  /** A join returns exactly when every worker has left, and then the executor can be started again. */
  lemma JoinMeans(s: State)
    ensures (forall w :: w in s.workers ==> s.workers[w].Exited?) ==>
              !Step(s, Join).running && forall count :: Step(Step(s, Join), Start(count, true)).running
    ensures (exists w :: w in s.workers && !s.workers[w].Exited?) ==> Step(s, Join) == s
  {
  }
}
