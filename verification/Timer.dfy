/** The timer scheduler: a priority queue of deadlines, emptied by a pump while one is attached
    and by the fallback thread otherwise.  Each critical section is one step. */
module Timer {
  import opened Text

  /** Times are nanoseconds of the steady clock; durations are asked for in milliseconds. */
  datatype Entry = Entry(deadline: int, sequence: nat, resume: nat)

  const MILLISECOND := 1_000_000

  /** The order in which the priority queue hands entries out. */
  predicate Before(a: Entry, b: Entry) {
    a.deadline < b.deadline || (a.deadline == b.deadline && a.sequence < b.sequence)
  }

  datatype Fault = Stopping | NoWake | PumpAttached

  const TOKEN_LIMIT := 0x1_0000_0000_0000_0000

  /** `timers` is the priority queue in the order it will be popped; `log` is every entry collected
      so far in order, `firedAt` the clock when it was, `scheduled` every entry ever pushed. */
  datatype State = State(
    timers: seq<Entry>, sequence: nat, nextToken: nat, pumpToken: nat, stopping: bool,
    log: seq<Entry>, firedAt: seq<int>, scheduled: seq<Entry>)

  const INITIAL := State([], 0, 1, 0, false, [], [], [])

  function Insert(timers: seq<Entry>, e: Entry): seq<Entry> {
    if timers == [] || Before(e, timers[0]) then [e] + timers else [timers[0]] + Insert(timers[1..], e)
  }

  function Schedule(s: State, now: int, duration: int, resume: nat): (State, Option<Fault>) {
    if s.stopping then (s, Some(Stopping))
    else
      var e := Entry(now + duration * MILLISECOND, s.sequence, resume);
      (s.(timers := Insert(s.timers, e), sequence := s.sequence + 1, scheduled := s.scheduled + [e]), None)
  }

  /** The next token in the 64-bit counter, zero skipped. */
  function NextToken(n: nat): (t: nat)
    ensures t != 0
  {
    if n == 0 then 1 else n
  }

  function Attach(s: State, wake: bool): (State, Option<Fault>) {
    if !wake then (s, Some(NoWake))
    else if s.stopping then (s, Some(Stopping))
    else if s.pumpToken != 0 then (s, Some(PumpAttached))
    else
      var token := NextToken(s.nextToken);
      (s.(pumpToken := token, nextToken := (token + 1) % TOKEN_LIMIT), None)
  }

  function Detach(s: State, token: nat): State {
    if token != 0 && s.pumpToken == token then s.(pumpToken := 0) else s
  }

  /** How many entries at the front are due. */
  function DueCount(timers: seq<Entry>, now: int): (n: nat)
    ensures n <= |timers|
  {
    if timers == [] || timers[0].deadline > now then 0 else 1 + DueCount(timers[1..], now)
  }

  function Repeated(now: int, n: nat): (r: seq<int>)
    ensures |r| == n && forall k :: 0 <= k < n ==> r[k] == now
  {
    seq(n, _ => now)
  }

  /** collect_due_locked. */
  function Collect(s: State, now: int): State {
    var n := DueCount(s.timers, now);
    s.(timers := s.timers[n..], log := s.log + s.timers[..n], firedAt := s.firedAt + Repeated(now, n))
  }

  function DispatchDue(s: State, now: int): State {
    if s.pumpToken == 0 then s else Collect(s, now)
  }

  /** One round of the fallback thread, which reads the clock twice. */
  function Fallback(s: State, checked: int, now: int): State {
    if s.stopping || s.pumpToken != 0 || s.timers == [] || checked < s.timers[0].deadline then s
    else Collect(s, now)
  }

  function Stop(s: State): State {
    s.(stopping := true, pumpToken := 0)
  }

  // ----- runs -----

  datatype Event =
    | DoSchedule(now: int, duration: int, resume: nat)
    | DoAttach(wake: bool)
    | DoDetach(token: nat)
    | DoDispatch(now: int)
    | DoFallback(checked: int, now: int)
    | DoStop

  function Step(s: State, e: Event): State {
    match e
    case DoSchedule(now, duration, resume) => Schedule(s, now, duration, resume).0
    case DoAttach(wake) => Attach(s, wake).0
    case DoDetach(token) => Detach(s, token)
    case DoDispatch(now) => DispatchDue(s, now)
    case DoFallback(checked, now) => Fallback(s, checked, now)
    case DoStop => Stop(s)
  }

  function Run(s: State, events: seq<Event>): State
    decreases |events|
  {
    if events == [] then s else Run(Step(s, events[0]), events[1..])
  }

  /** The clock never runs backwards from event to event, and nobody schedules into the past. */
  predicate Monotone(clock: int, events: seq<Event>)
    decreases |events|
  {
    events == [] ||
    match events[0]
    case DoSchedule(now, duration, _) => clock <= now && duration >= 0 && Monotone(now, events[1..])
    case DoDispatch(now) => clock <= now && Monotone(now, events[1..])
    case DoFallback(checked, now) => clock <= checked <= now && Monotone(now, events[1..])
    case _ => Monotone(clock, events[1..])
  }

  // ----- the invariant -----

  predicate Sorted(s: seq<Entry>) {
    forall j, k :: 0 <= j < k < |s| ==> Before(s[j], s[k])
  }

  ghost predicate Timely(log: seq<Entry>, firedAt: seq<int>, clock: int) {
    |firedAt| == |log| && forall k :: 0 <= k < |log| ==> log[k].deadline <= firedAt[k] <= clock
  }

  ghost predicate Numbered(entries: seq<Entry>, limit: nat) {
    forall k :: 0 <= k < |entries| ==> entries[k].sequence < limit
  }

  /** Everything collected comes before everything pending, and was due. */
  ghost predicate Inv(s: State, clock: int) {
    && Sorted(s.log + s.timers)
    && Timely(s.log, s.firedAt, clock)
    && Numbered(s.timers, s.sequence) && Numbered(s.log, s.sequence)
    && multiset(s.scheduled) == multiset(s.log) + multiset(s.timers)
  }

  lemma {:induction false} InsertBag(timers: seq<Entry>, e: Entry)
    ensures multiset(Insert(timers, e)) == multiset(timers) + multiset{e}
  {
    if timers == [] || Before(e, timers[0]) {
      assert multiset([e] + timers) == multiset([e]) + multiset(timers);
    } else {
      InsertBag(timers[1..], e);
      var rest := Insert(timers[1..], e);
      assert multiset([timers[0]] + rest) == multiset{timers[0]} + multiset(rest);
      assert timers == [timers[0]] + timers[1..];
    }
  }

  lemma InsertMembers(timers: seq<Entry>, e: Entry, k: nat)
    requires k < |Insert(timers, e)|
    ensures Insert(timers, e)[k] == e || Insert(timers, e)[k] in timers
  {
    InsertBag(timers, e);
    assert Insert(timers, e)[k] in multiset(Insert(timers, e));
  }

  lemma {:induction false} InsertSorted(timers: seq<Entry>, e: Entry)
    requires Sorted(timers) && Numbered(timers, e.sequence)
    ensures Sorted(Insert(timers, e))
  {
    if timers == [] {
    } else if Before(e, timers[0]) {
      forall k | 0 <= k < |timers| ensures Before(e, timers[k]) {
        assert k > 0 ==> Before(timers[0], timers[k]);
      }
    } else {
      InsertSorted(timers[1..], e);
      var rest := Insert(timers[1..], e);
      forall k | 0 <= k < |rest| ensures Before(timers[0], rest[k]) {
        InsertMembers(timers[1..], e, k);
      }
    }
  }

  lemma InsertKeeps(timers: seq<Entry>, e: Entry)
    requires Sorted(timers) && Numbered(timers, e.sequence)
    ensures Sorted(Insert(timers, e)) && Numbered(Insert(timers, e), e.sequence + 1)
    ensures multiset(Insert(timers, e)) == multiset(timers) + multiset{e}
  {
    InsertSorted(timers, e);
    InsertBag(timers, e);
    forall k | 0 <= k < |Insert(timers, e)| ensures Insert(timers, e)[k].sequence < e.sequence + 1 {
      InsertMembers(timers, e, k);
    }
  }

  lemma SortedTail(log: seq<Entry>, timers: seq<Entry>)
    requires Sorted(log + timers)
    ensures Sorted(timers) && Sorted(log)
    ensures forall j, k :: 0 <= j < |log| && 0 <= k < |timers| ==> Before(log[j], timers[k])
  {
    var all := log + timers;
    forall j, k | 0 <= j < k < |timers| ensures Before(timers[j], timers[k]) {
      assert Before(all[|log| + j], all[|log| + k]);
    }
    forall j, k | 0 <= j < k < |log| ensures Before(log[j], log[k]) {
      assert Before(all[j], all[k]);
    }
    forall j, k | 0 <= j < |log| && 0 <= k < |timers| ensures Before(log[j], timers[k]) {
      assert Before(all[j], all[|log| + k]);
    }
  }

  lemma SortedJoin(log: seq<Entry>, timers: seq<Entry>)
    requires Sorted(log) && Sorted(timers)
    requires forall j, k :: 0 <= j < |log| && 0 <= k < |timers| ==> Before(log[j], timers[k])
    ensures Sorted(log + timers)
  {
  }

  /** A new entry is due no earlier than anything collected, and numbered after it. */
  lemma InsertAfterLog(log: seq<Entry>, firedAt: seq<int>, timers: seq<Entry>, e: Entry, clock: int)
    requires Sorted(log + timers) && Timely(log, firedAt, clock) && clock <= e.deadline
    requires Numbered(timers, e.sequence) && Numbered(log, e.sequence)
    ensures Sorted(log + Insert(timers, e))
  {
    SortedTail(log, timers);
    InsertSorted(timers, e);
    var more := Insert(timers, e);
    forall j, k | 0 <= j < |log| && 0 <= k < |more| ensures Before(log[j], more[k]) {
      InsertMembers(timers, e, k);
    }
    SortedJoin(log, more);
  }

  lemma ScheduleInv(s: State, clock: int, now: int, duration: int, resume: nat)
    requires Inv(s, clock) && clock <= now && duration >= 0
    ensures Inv(Schedule(s, now, duration, resume).0, now)
  {
    if !s.stopping {
      var e := Entry(now + duration * MILLISECOND, s.sequence, resume);
      SortedTail(s.log, s.timers);
      InsertKeeps(s.timers, e);
      InsertAfterLog(s.log, s.firedAt, s.timers, e, clock);
      hide Insert, Sorted;
      assert multiset(s.scheduled + [e]) == multiset(s.scheduled) + multiset{e};
    }
  }

  lemma {:induction false} DueAre(timers: seq<Entry>, now: int, k: nat)
    requires k < DueCount(timers, now)
    ensures timers[k].deadline <= now
  {
    if k > 0 {
      DueAre(timers[1..], now, k - 1);
    }
  }

  lemma CollectTimely(log: seq<Entry>, firedAt: seq<int>, timers: seq<Entry>, clock: int, now: int, n: nat)
    requires Timely(log, firedAt, clock) && clock <= now && n == DueCount(timers, now)
    ensures Timely(log + timers[..n], firedAt + Repeated(now, n), now)
  {
    hide DueCount, Repeated;
    forall k | 0 <= k < n ensures timers[k].deadline <= now {
      DueAre(timers, now, k);
    }
  }

  /** Moving the front of the queue to the end of the log reorders nothing. */
  lemma MoveFront(log: seq<Entry>, timers: seq<Entry>, n: nat)
    requires n <= |timers|
    ensures (log + timers[..n]) + timers[n..] == log + timers
    ensures multiset(log + timers[..n]) + multiset(timers[n..]) == multiset(log) + multiset(timers)
  {
    assert timers[..n] + timers[n..] == timers;
    assert multiset(timers) == multiset(timers[..n]) + multiset(timers[n..]);
  }

  lemma NumberedMove(log: seq<Entry>, timers: seq<Entry>, n: nat, limit: nat)
    requires n <= |timers| && Numbered(log, limit) && Numbered(timers, limit)
    ensures Numbered(log + timers[..n], limit) && Numbered(timers[n..], limit)
  {
  }

  lemma CollectInv(s: State, clock: int, now: int)
    requires Inv(s, clock) && clock <= now
    ensures Inv(Collect(s, now), now)
  {
    hide Timely, Sorted, Numbered, DueCount, Repeated;
    var n := DueCount(s.timers, now);
    CollectTimely(s.log, s.firedAt, s.timers, clock, now, n);
    MoveFront(s.log, s.timers, n);
    NumberedMove(s.log, s.timers, n, s.sequence);
  }

  /** Nothing that is due is left behind, and nothing else is taken. */
  lemma {:induction false} CollectExactly(timers: seq<Entry>, now: int, k: nat)
    requires Sorted(timers) && k < |timers|
    ensures k < DueCount(timers, now) <==> timers[k].deadline <= now
  {
    if timers[0].deadline > now {
      assert k > 0 ==> Before(timers[0], timers[k]);
    } else if k > 0 {
      CollectExactly(timers[1..], now, k - 1);
    }
  }

  /** The latest clock reading after the events. */
  function Clock(clock: int, events: seq<Event>): int
    decreases |events|
  {
    if events == [] then clock
    else match events[0]
      case DoSchedule(now, _, _) => Clock(now, events[1..])
      case DoDispatch(now) => Clock(now, events[1..])
      case DoFallback(_, now) => Clock(now, events[1..])
      case _ => Clock(clock, events[1..])
  }

  lemma LaterClock(s: State, clock: int, now: int)
    requires Inv(s, clock) && clock <= now
    ensures Inv(s, now)
  {
  }

  lemma {:induction false} RunInv(s: State, clock: int, events: seq<Event>)
    requires Inv(s, clock) && Monotone(clock, events)
    ensures Inv(Run(s, events), Clock(clock, events))
    decreases |events|
  {
    if events != [] {
      match events[0]
      case DoSchedule(now, duration, resume) =>
        ScheduleInv(s, clock, now, duration, resume);
        RunInv(Step(s, events[0]), now, events[1..]);
      case DoDispatch(now) =>
        LaterClock(s, clock, now);
        CollectInv(s, clock, now);
        RunInv(Step(s, events[0]), now, events[1..]);
      case DoFallback(checked, now) =>
        LaterClock(s, clock, now);
        CollectInv(s, clock, now);
        RunInv(Step(s, events[0]), now, events[1..]);
      case _ =>
        RunInv(Step(s, events[0]), clock, events[1..]);
    }
  }

  /** TIMER ORDER.  Over every run with a monotone clock and non-negative durations, whoever collects
      (pump or fallback, across any attach and detach history): the entries ever collected, taken
      all together, come out sorted by deadline and then by scheduling order; none came out before
      its deadline; and every scheduled entry is either collected once or still pending once. */
  lemma CollectionOrder(start: int, events: seq<Event>)
    requires Monotone(start, events)
    ensures var s := Run(INITIAL, events);
            && Sorted(s.log)
            && |s.firedAt| == |s.log| && (forall k :: 0 <= k < |s.log| ==> s.log[k].deadline <= s.firedAt[k])
            && multiset(s.scheduled) == multiset(s.log) + multiset(s.timers)
            && (forall j, k :: 0 <= j < |s.log| && 0 <= k < |s.timers| ==> Before(s.log[j], s.timers[k]))
  {
    RunInv(INITIAL, start, events);
    var s := Run(INITIAL, events);
    var all := s.log + s.timers;
    forall j, k | 0 <= j < k < |s.log| ensures Before(s.log[j], s.log[k]) {
      assert Before(all[j], all[k]);
    }
    forall j, k | 0 <= j < |s.log| && 0 <= k < |s.timers| ensures Before(s.log[j], s.timers[k]) {
      assert Before(all[j], all[|s.log| + k]);
    }
  }

  // ----- the scheduler as it runs -----

  class TimerScheduler {
    var timers: seq<Entry>
    var sequence: nat
    var nextToken: nat
    var pumpToken: nat
    var stopping: bool
    var log: seq<Entry>
    var firedAt: seq<int>
    var scheduled: seq<Entry>

    ghost function Now(): State
      reads this
    {
      State(timers, sequence, nextToken, pumpToken, stopping, log, firedAt, scheduled)
    }

    constructor ()
      ensures Now() == INITIAL
    {
      timers, sequence, nextToken, pumpToken, stopping := [], 0, 1, 0, false;
      log, firedAt, scheduled := [], [], [];
    }

    method Push(now: int, duration: int, resume: nat) returns (fault: Option<Fault>)
      modifies this
      ensures (Now(), fault) == Schedule(old(Now()), now, duration, resume)
    {
      if stopping { return Some(Stopping); }
      var e := Entry(now + duration * MILLISECOND, sequence, resume);
      timers, sequence, scheduled := Insert(timers, e), sequence + 1, scheduled + [e];
      return None;
    }

    method AttachPump(wake: bool) returns (token: nat, fault: Option<Fault>)
      modifies this
      ensures (Now(), fault) == Attach(old(Now()), wake)
      ensures fault.None? ==> token == pumpToken != 0
    {
      token := 0;
      if !wake { return 0, Some(NoWake); }
      if stopping { return 0, Some(Stopping); }
      if pumpToken != 0 { return 0, Some(PumpAttached); }
      token := nextToken;
      if token == 0 { token := 1; }
      pumpToken, nextToken := token, (token + 1) % TOKEN_LIMIT;
      return token, None;
    }

    method DetachPump(token: nat)
      modifies this
      ensures Now() == Detach(old(Now()), token)
    {
      if token == 0 { return; }
      if pumpToken == token { pumpToken := 0; }
    }

    /** collect_due_locked: pop while the earliest deadline has passed. */
    method CollectDue(now: int) returns (due: seq<Entry>)
      modifies `timers, `log, `firedAt
      ensures Now() == Collect(old(Now()), now)
      ensures log == old(log) + due
    {
      due := [];
      while timers != [] && timers[0].deadline <= now
        invariant |due| <= |old(timers)| && due == old(timers)[..|due|] && timers == old(timers)[|due|..]
        invariant DueCount(old(timers), now) == |due| + DueCount(timers, now)
        invariant log == old(log) && firedAt == old(firedAt)
        decreases |timers|
      {
        assert old(timers)[..|due| + 1] == due + [timers[0]];
        due, timers := due + [timers[0]], timers[1..];
      }
      assert DueCount(timers, now) == 0 && |due| == DueCount(old(timers), now);
      log, firedAt := log + due, firedAt + Repeated(now, |due|);
    }

    method DispatchDueTimers(now: int)
      modifies `timers, `log, `firedAt
      ensures Now() == DispatchDue(old(Now()), now)
    {
      if pumpToken == 0 { return; }
      var due := CollectDue(now);
    }

    method FallbackRound(checked: int, now: int)
      modifies `timers, `log, `firedAt
      ensures Now() == Fallback(old(Now()), checked, now)
    {
      if stopping || pumpToken != 0 || timers == [] || checked < timers[0].deadline { return; }
      var due := CollectDue(now);
    }

    /** How long the pump may sleep, in milliseconds: never so long that a deadline within the
        maximum is overslept by a millisecond or more, and never waking it before. */
    method PollTimeout(maximum: int, now: int) returns (ms: int)
      ensures 0 <= ms && (maximum <= 0 ==> ms == 0) && (maximum > 0 ==> ms <= maximum)
      ensures maximum > 0 && (pumpToken == 0 || timers == []) ==> ms == maximum
      ensures maximum > 0 && pumpToken != 0 && timers != [] && timers[0].deadline <= now ==> ms == 0
      ensures maximum > 0 && pumpToken != 0 && timers != [] && now < timers[0].deadline && ms < maximum ==>
                timers[0].deadline <= now + ms * MILLISECOND < timers[0].deadline + MILLISECOND
      ensures maximum > 0 && pumpToken != 0 && timers != [] && ms == maximum ==>
                timers[0].deadline > now + (maximum - 1) * MILLISECOND
    {
      if maximum <= 0 { return 0; }
      if pumpToken == 0 || timers == [] { return maximum; }
      var deadline := timers[0].deadline;
      if deadline <= now { return 0; }
      var remaining := deadline - now;
      var rounded := remaining / MILLISECOND;
      if rounded * MILLISECOND < remaining { rounded := rounded + 1; }
      return if maximum < rounded then maximum else rounded;
    }

    method Shutdown()
      modifies this
      ensures Now() == Stop(old(Now()))
    {
      stopping, pumpToken := true, 0;
    }
  }
}
