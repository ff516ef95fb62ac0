/** What the callers of the timer scheduler asked for, read off the events alone, and the proof that exactly that
    fires: each request not before its own time, and at the first chance after it. */
module TimerFires {
  import opened Text
  import opened Timer

  // ----- what was asked for -----

  predicate Stopped(events: seq<Event>) {
    exists k :: 0 <= k < |events| && events[k].DoStop?
  }

  /** The requests in the order they were made, each with the time it becomes due; none after a stop. */
  function Asked(events: seq<Event>): seq<Entry> {
    if events == [] then []
    else
      var front, last := events[..|events| - 1], events[|events| - 1];
      if last.DoSchedule? && !Stopped(front) then
        Asked(front) + [Entry(last.now + last.duration * 1_000_000, |Asked(front)|, last.resume)]
      else Asked(front)
  }

  /** Attached pumps are numbered from one up, and again from one when sixty-four bits are used up. */
  function PumpNumber(k: nat): nat {
    k % 0xFFFF_FFFF_FFFF_FFFF + 1
  }

  /** The pump attached now, and how many ever were. */
  datatype Pump = Pump(current: Option<nat>, attached: nat)

  function PumpAfter(events: seq<Event>): Pump {
    if events == [] then Pump(None, 0)
    else
      var front, last := events[..|events| - 1], events[|events| - 1];
      var p := PumpAfter(front);
      match last
      case DoAttach(wake) =>
        if wake && !Stopped(front) && p.current.None? then Pump(Some(PumpNumber(p.attached)), p.attached + 1) else p
      case DoDetach(token) => if p.current == Some(token) then p.(current := None) else p
      case DoStop => p.(current := None)
      case _ => p
  }

  // ----- the scheduler keeps to it -----

  lemma {:induction false} RunAppend(s: State, events: seq<Event>, e: Event)
    ensures Run(s, events + [e]) == Step(Run(s, events), e)
    decreases |events|
  {
    if events == [] {
      assert events + [e] == [e];
      assert [e][1..] == [];
    } else {
      assert (events + [e])[0] == events[0] && (events + [e])[1..] == events[1..] + [e];
      RunAppend(Step(s, events[0]), events[1..], e);
    }
  }

  lemma StoppedAppend(front: seq<Event>, last: Event)
    ensures Stopped(front + [last]) <==> Stopped(front) || last.DoStop?
  {
    var events := front + [last];
    if Stopped(front) {
      var k :| 0 <= k < |front| && front[k].DoStop?;
      assert events[k].DoStop?;
    }
    if last.DoStop? {
      assert events[|front|].DoStop?;
    }
  }

  /** The state a run should lead to, as far as the events say. */
  ghost predicate KeepsTo(s: State, events: seq<Event>) {
    && s.stopping == Stopped(events)
    && s.scheduled == Asked(events) && s.sequence == |s.scheduled|
    && var p := PumpAfter(events);
       && s.pumpToken == (if p.current.None? then 0 else p.current.value)
       && (p.current.Some? ==> p.current.value != 0)
       && (if p.attached == 0 then s.nextToken == 1 else s.nextToken == (PumpNumber(p.attached - 1) + 1) % TOKEN_LIMIT)
  }

  lemma NextNumber(k: nat)
    ensures NextToken(if k == 0 then 1 else (PumpNumber(k - 1) + 1) % TOKEN_LIMIT) == PumpNumber(k)
  {
    if k > 0 {
      var m := 0xFFFF_FFFF_FFFF_FFFF;
      var q, r := (k - 1) / m, (k - 1) % m;
      assert k == q * m + (r + 1);
      if r + 1 == m {
        assert k == (q + 1) * m;
        assert k % m == 0;
      } else {
        assert k % m == r + 1;
      }
    }
  }

  lemma StepKeepsTo(s: State, front: seq<Event>, last: Event)
    requires KeepsTo(s, front)
    ensures KeepsTo(Step(s, last), front + [last])
  {
    var events := front + [last];
    assert events[..|events| - 1] == front && events[|events| - 1] == last;
    StoppedAppend(front, last);
    NextNumber(PumpAfter(front).attached);
    hide Stopped, NextToken, PumpNumber, Insert, DueCount, Repeated;
    assert PumpAfter(front).current != Some(0);
  }

  /** REQUESTS ARE KEPT.  After any events the scheduler holds exactly the requests made before a stop, each due at
      its own time, and its pump is the one the events attached last. */
  lemma {:induction false} RunKeepsTo(events: seq<Event>)
    ensures KeepsTo(Run(INITIAL, events), events)
  {
    if events != [] {
      var front, last := events[..|events| - 1], events[|events| - 1];
      assert events == front + [last];
      RunKeepsTo(front);
      RunAppend(INITIAL, front, last);
      StepKeepsTo(Run(INITIAL, front), front, last);
    }
  }

  /** The k-th request is due at the time it asked for. */
  lemma {:induction false} AskedInOrder(events: seq<Event>, k: nat)
    requires k < |Asked(events)|
    ensures Asked(events)[k].sequence == k
  {
    var front := events[..|events| - 1];
    if k < |Asked(front)| {
      AskedInOrder(front, k);
    }
  }

  /** NOTHING FIRES EARLY, NOTHING TWICE.  Whatever fired is one of the requests, at or after the time it asked for,
      and each request has fired once or waits. */
  lemma FiresRequests(start: int, events: seq<Event>)
    requires Monotone(start, events)
    ensures var s := Run(INITIAL, events);
            && |s.firedAt| == |s.log|
            && (forall k :: 0 <= k < |s.log| ==>
                  && s.log[k].sequence < |Asked(events)| && s.log[k] == Asked(events)[s.log[k].sequence]
                  && s.log[k].deadline <= s.firedAt[k])
            && multiset(Asked(events)) == multiset(s.log) + multiset(s.timers)
  {
    RunKeepsTo(events);
    CollectionOrder(start, events);
    var s := Run(INITIAL, events);
    forall k | 0 <= k < |s.log|
      ensures s.log[k].sequence < |Asked(events)| && s.log[k] == Asked(events)[s.log[k].sequence]
    {
      assert s.log[k] in multiset(s.log);
      assert s.log[k] in multiset(Asked(events));
      var j :| 0 <= j < |Asked(events)| && Asked(events)[j] == s.log[k];
      AskedInOrder(events, j);
    }
  }

  // ----- at the first chance -----

  /** Somebody looks at the clock and may take what is due: the pump, or the fallback thread when there is none. */
  predicate Collects(events: seq<Event>, waiting: seq<Entry>, e: Event) {
    match e
    case DoDispatch(_) => PumpAfter(events).current.Some?
    case DoFallback(checked, _) =>
      && PumpAfter(events).current.None? && !Stopped(events)
      && exists k :: 0 <= k < |waiting| && waiting[k].deadline <= checked
    case _ => false
  }

  /** EVERYTHING DUE FIRES.  Whenever one that may collect looks at the clock, it takes exactly the requests that are
      due, in order of their times; nothing else ever fires any. */
  lemma FiresAtOnce(start: int, events: seq<Event>, e: Event)
    requires Monotone(start, events)
    ensures var s, t := Run(INITIAL, events), Run(INITIAL, events + [e]);
            if Collects(events, s.timers, e) then
              && (forall k :: 0 <= k < |t.timers| ==> t.timers[k].deadline > e.now)
              && s.log <= t.log && (forall k :: |s.log| <= k < |t.log| ==> t.log[k].deadline <= e.now)
              && t.log + t.timers == s.log + s.timers
            else t.log == s.log && (!e.DoSchedule? ==> t.timers == s.timers)
  {
    var s := Run(INITIAL, events);
    RunKeepsTo(events);
    RunInv(INITIAL, start, events);
    RunAppend(INITIAL, events, e);
    SortedTail(s.log, s.timers);
    if e.DoFallback? {
      FirstIsDue(s.timers, e.checked);
    }
    hide Sorted, Inv, Asked, PumpAfter, Run, Stopped, Insert, Monotone;
    if e.DoFallback? || e.DoDispatch? {
      CollectTakes(s, e.now);
      hide Collect;
    }
  }

  lemma CollectTakes(s: State, now: int)
    requires Sorted(s.timers)
    ensures var t := Collect(s, now);
            && (forall k :: 0 <= k < |t.timers| ==> t.timers[k].deadline > now)
            && s.log <= t.log && (forall k :: |s.log| <= k < |t.log| ==> t.log[k].deadline <= now)
            && t.log + t.timers == s.log + s.timers
  {
    var n := DueCount(s.timers, now);
    forall k | 0 <= k < |s.timers| ensures k < n <==> s.timers[k].deadline <= now {
      CollectExactly(s.timers, now, k);
    }
    hide Sorted, DueCount, Repeated;
    var t := Collect(s, now);
    assert forall k :: 0 <= k < |t.timers| ==> t.timers[k] == s.timers[k + n];
    assert forall k :: |s.log| <= k < |t.log| ==> t.log[k] == s.timers[k - |s.log|];
  }

  lemma FirstIsDue(timers: seq<Entry>, checked: int)
    requires Sorted(timers)
    ensures (exists k :: 0 <= k < |timers| && timers[k].deadline <= checked) <==> timers != [] && timers[0].deadline <= checked
  {
    if k :| 0 <= k < |timers| && timers[k].deadline <= checked {
      assert k > 0 ==> Before(timers[0], timers[k]);
    }
  }
}
