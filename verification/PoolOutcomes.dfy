/** How an acquisition ends, whatever other threads do meanwhile: with a connection, or without any lease. */
module PoolOutcomes {
  import opened Text
  import opened Pool

  // ----- which entry -----

  /** The k-th entry counted from `start`, going round. */
  function Around(size: nat, start: nat, k: nat): nat {
    if start + k < size then start + k else start + k - size
  }

  /** Entry i is the first free one, counted from `start`. */
  ghost predicate FirstFree(slots: seq<Slot>, start: nat, i: nat) {
    exists k :: 0 <= k < |slots| && FreeAfter(slots, start, k, i)
  }

  ghost predicate FreeAfter(slots: seq<Slot>, start: nat, k: nat, i: nat) {
    && k < |slots| && start < |slots| && i == Around(|slots|, start, k) && !slots[i].leased
    && forall j :: 0 <= j < k ==> slots[Around(|slots|, start, j)].leased
  }

  lemma {:induction false} ScanTakesFirst(slots: seq<Slot>, start: nat, offset: nat)
    requires start < |slots| && (forall j :: 0 <= j < offset && j < |slots| ==> slots[Around(|slots|, start, j)].leased)
    ensures Scan(slots, start, offset).Some? ==> FirstFree(slots, start, Scan(slots, start, offset).value)
    decreases |slots| - offset
  {
    if offset < |slots| {
      WrapIs(start + offset, |slots|);
      var index := Wrap(start + offset, |slots|);
      if slots[index].leased {
        ScanTakesFirst(slots, start, offset + 1);
      } else {
        assert FreeAfter(slots, start, offset, index);
      }
    }
  }

  /** ROUND ROBIN.  An acquisition reserves the first free entry counted from `next`, which then stands behind it; a
      cancelled one goes away with nothing. */
  lemma AcquireTakes(s: State, t: Thread)
    requires Inv(s) && PhaseOf(s, t).Wanting?
    ensures PhaseOf(Step(s, t, Lock(true)), t) == Outside && Step(s, t, Lock(true)).slots == s.slots
    ensures var u := Step(s, t, Lock(false));
            if forall i :: 0 <= i < |s.slots| ==> s.slots[i].leased then PhaseOf(u, t) == Asleep && u.slots == s.slots
            else
              && PhaseOf(u, t).Reserved? && !PhaseOf(u, t).sweep
              && var i := PhaseOf(u, t).index;
                 && FirstFree(s.slots, s.next, i) && i < |s.slots|
                 && u.next == (if i + 1 < |s.slots| then i + 1 else 0)
                 && u.slots == s.slots[i := s.slots[i].(leased := true)]
  {
    ScanIsComplete(s.slots, s.next);
    ScanFinds(s.slots, s.next, 0);
    if s.slots != [] {
      ScanTakesFirst(s.slots, s.next, 0);
      var r := Scan(s.slots, s.next, 0);
      if r.Some? {
        WrapIs(r.value + 1, |s.slots|);
      }
    }
    hide Scan, Wrap, FirstFree;
  }

  // ----- how it ends -----

  ghost predicate NoLease(s: State, t: Thread) {
    forall i :: !HeldBy(s, t, i)
  }

  lemma EnsureOutcome(s: State, t: Thread, i: nat, cancelled: bool, health: Health)
    requires Inv(s) && PhaseOf(s, t) == Reserved(i, false)
    ensures i < |s.slots|
    ensures var u := Step(s, t, Ensure(cancelled, health));
            if cancelled || health.Dead? then
              PhaseOf(u, t) == Outside && NoLease(u, t) && u.slots == s.slots[i := s.slots[i].(leased := false)]
            else
              && PhaseOf(u, t) == Healthy(i, false) && |u.slots| == |s.slots|
              && u.slots[i].connection == (if health.Reconnected? then s.made else s.slots[i].connection)
  {
    assert HeldBy(s, t, i) && Leased(s, i);
  }

  /** ACQUIRED OR NOTHING.  From its reservation on, with any steps of other threads in between, an acquisition ends with
      the entry it reserved, on a fresh connection exactly if the old one was found dead and replaced; or, cancelled
      before or after the check or left without any connection, it ends with no lease at all. */
  lemma AcquireEnds(s: State, t: Thread, i: nat, early: bool, health: Health, others: seq<(Thread, Action)>, late: bool)
    requires Inv(s) && OwnConnections(s) && PhaseOf(s, t) == Reserved(i, false) && OthersOnly(others, t)
    ensures var checked := Step(s, t, Ensure(early, health));
            var u := Step(Run(checked, others), t, Return(late));
            if early || health.Dead? || late then PhaseOf(u, t) == Outside && NoLease(u, t)
            else
              && PhaseOf(u, t) == Holding(i) && i < |s.slots| == |u.slots|
              && u.slots[i].connection == (if health.Reconnected? then s.made else s.slots[i].connection)
  {
    EnsureOutcome(s, t, i, early, health);
    var checked := Step(s, t, Ensure(early, health));
    StepInv(s, t, Ensure(early, health));
    StepConnections(s, t, Ensure(early, health));
    hide Inv, OwnConnections;
    PhaseStays(checked, t, others);
    var later := Run(checked, others);
    if !early && !health.Dead? {
      assert HeldBy(checked, t, i);
      HeldConnectionStays(checked, t, i, others);
      ReturnOutcome(later, t, i, late);
    } else {
      NothingReturned(later, t, late);
    }
    hide Step, Run;
  }

  lemma {:induction false} PhaseStays(s: State, t: Thread, others: seq<(Thread, Action)>)
    requires OthersOnly(others, t)
    ensures PhaseOf(Run(s, others), t) == PhaseOf(s, t)
    decreases |others|
  {
    if others != [] {
      OtherThread(s, others[0].0, others[0].1, t);
      assert OthersOnly(others[1..], t);
      hide Step;
      PhaseStays(Step(s, others[0].0, others[0].1), t, others[1..]);
    }
  }

  lemma ReturnOutcome(s: State, t: Thread, i: nat, late: bool)
    requires PhaseOf(s, t) == Healthy(i, false) && i < |s.slots|
    ensures var u := Step(s, t, Return(late));
            && PhaseOf(u, t) == (if late then Outside else Holding(i)) && (late ==> NoLease(u, t))
            && |u.slots| == |s.slots| && u.slots[i].connection == s.slots[i].connection
  {
  }

  lemma NothingReturned(s: State, t: Thread, late: bool)
    requires PhaseOf(s, t) == Outside
    ensures Step(s, t, Return(late)) == s && NoLease(s, t)
  {
  }

  /** A thread that waits leaves at its deadline with nothing, counted as a time-out unless it was cancelled. */
  lemma WaitEnds(s: State, t: Thread, cancelled: bool)
    requires PhaseOf(s, t).Asleep?
    ensures var u := Step(s, t, TimeOut(cancelled));
            PhaseOf(u, t) == Outside && NoLease(u, t) && u.slots == s.slots && u.timeouts == s.timeouts + if cancelled then 0 else 1
    ensures PhaseOf(Step(s, t, Wake), t) == Wanting
  {
  }

  // ----- the sweep -----

  /** One entry of a sweep, with any steps of other threads while its health is checked: a free entry is checked and
      given back, a leased one is passed over; only an entry that cannot be revived ends the sweep early. */
  lemma SweepEntry(s: State, t: Thread, k: nat, health: Health, others: seq<(Thread, Action)>)
    requires Inv(s) && OwnConnections(s) && PhaseOf(s, t) == Sweeping(k) && OthersOnly(others, t)
    ensures k >= |s.slots| ==> PhaseOf(Step(s, t, Lock(false)), t) == Outside
    ensures k < |s.slots| && s.slots[k].leased ==> PhaseOf(Step(s, t, Lock(false)), t) == Sweeping(k + 1)
    ensures k < |s.slots| && !s.slots[k].leased ==>
              var u := Step(Run(Step(Step(s, t, Lock(false)), t, Ensure(false, health)), others), t, Return(false));
              PhaseOf(u, t) == (if health.Dead? then Outside else Sweeping(k + 1)) && NoLease(u, t)
  {
    if k < |s.slots| && !s.slots[k].leased {
      var a := Step(s, t, Lock(false));
      var b := Step(a, t, Ensure(false, health));
      StepInv(s, t, Lock(false));
      StepConnections(s, t, Lock(false));
      StepInv(a, t, Ensure(false, health));
      StepConnections(a, t, Ensure(false, health));
      assert PhaseOf(a, t) == Reserved(k, true) && k < |a.slots|;
      SweepChecked(a, t, k, health);
      hide Inv, OwnConnections;
      PhaseStays(b, t, others);
      if !health.Dead? {
        assert HeldBy(b, t, k);
        HeldConnectionStays(b, t, k, others);
      }
      SweepReturned(Run(b, others), t, k, health.Dead?);
      hide Step, Run;
    }
  }

  lemma SweepChecked(s: State, t: Thread, k: nat, health: Health)
    requires PhaseOf(s, t) == Reserved(k, true) && k < |s.slots|
    ensures PhaseOf(Step(s, t, Ensure(false, health)), t) == if health.Dead? then Outside else Healthy(k, true)
  {
  }

  lemma SweepReturned(s: State, t: Thread, k: nat, dead: bool)
    requires PhaseOf(s, t) == (if dead then Outside else Healthy(k, true)) && (!dead ==> k < |s.slots|)
    ensures var u := Step(s, t, Return(false));
            PhaseOf(u, t) == (if dead then Outside else Sweeping(k + 1)) && NoLease(u, t)
  {
  }

  // ----- connections are accounted for -----

  /** Every connection ever made was there from the start or replaced a dead one. */
  lemma {:induction false} MadeConserved(s: State, trace: seq<(Thread, Action)>)
    ensures Run(s, trace).made - Run(s, trace).reconnects == s.made - s.reconnects
    decreases |trace|
  {
    if trace != [] {
      StepConserves(s, trace[0].0, trace[0].1);
      hide Step;
      MadeConserved(Step(s, trace[0].0, trace[0].1), trace[1..]);
    }
  }

  lemma StepConserves(s: State, t: Thread, a: Action)
    ensures Step(s, t, a).made - Step(s, t, a).reconnects == s.made - s.reconnects
  {
    hide Scan, Wrap;
  }
}
