/** The connection pool under any number of threads.  Each critical section of pool.cpp is one
    step; between two steps of a thread every other thread may take steps of its own. */
module Pool {
  import opened Text

  /** `connection` names the connection object in the entry. */
  datatype Slot = Slot(leased: bool, connection: nat, validatedAt: int)

  /** Where a thread is.  In `Reserved`, `Healthy` and `Holding` it owns a lease on an entry;
      `sweep` says that validate_idle reserved it, not acquire. */
  datatype Phase =
    | Outside
    | Wanting                              // acquire, about to lock the pool
    | Asleep                               // acquire, waiting for a lease to come back
    | Reserved(index: nat, sweep: bool)    // entry reserved, health not yet ensured
    | Healthy(index: nat, sweep: bool)     // ensure_healthy has returned
    | Holding(index: nat)                  // acquire has returned the connection
    | Sweeping(next: nat)                  // validate_idle, about to lock for this entry

  type Thread = nat

  datatype State = State(
    slots: seq<Slot>, next: nat, reconnects: nat, timeouts: nat, made: nat, threads: map<Thread, Phase>)

  /** A pool of `size` connections, numbered as the factory made them. */
  function Initial(size: nat, now: int): State {
    State(seq(size, i requires 0 <= i < size => Slot(false, i, now)), 0, 0, 0, size, map[])
  }

  function PhaseOf(s: State, t: Thread): Phase {
    if t in s.threads then s.threads[t] else Outside
  }

  function Holds(p: Phase): Option<nat> {
    match p
    case Reserved(i, _) => Some(i)
    case Healthy(i, _) => Some(i)
    case Holding(i) => Some(i)
    case _ => None
  }

  // ----- critical sections -----

  function Wrap(x: nat, size: nat): (i: nat)
    requires size > 0
    ensures i < size
  {
    x % size
  }

  /** The first free entry at or after `start + offset`, cyclically. */
  function Scan(slots: seq<Slot>, start: nat, offset: nat): Option<nat>
    decreases |slots| - offset
  {
    if offset >= |slots| then None
    else
      var index := Wrap(start + offset, |slots|);
      if !slots[index].leased then Some(index) else Scan(slots, start, offset + 1)
  }

  function SetLeased(s: State, i: nat, leased: bool): State
    requires i < |s.slots|
  {
    s.(slots := s.slots[i := s.slots[i].(leased := leased)])
  }

  /** reserve_entry, and the move of `next` behind the entry. */
  function Reserve(s: State, i: nat): State
    requires i < |s.slots|
  {
    SetLeased(s, i, true).(next := Wrap(i + 1, |s.slots|))
  }

  function Move(s: State, t: Thread, p: Phase): State {
    s.(threads := s.threads[t := p])
  }

  /** The lease is destroyed: the entry is free again. */
  function Release(s: State, t: Thread, p: Phase): State {
    match Holds(PhaseOf(s, t))
    case Some(i) => if i < |s.slots| then Move(SetLeased(s, i, false), t, p) else s
    case None => s
  }

  /** What ensure_healthy meets outside the lock: no check due or a good ping, a successful
      reconnection at `at`, or only failures. */
  datatype Health = Fine(pinged: Option<int>) | Reconnected(at: int) | Dead

  function Checked(s: State, t: Thread, i: nat, sweep: bool, health: Health): State
    requires i < |s.slots|
  {
    match health
    case Fine(None) => Move(s, t, Healthy(i, sweep))
    case Fine(Some(at)) => Move(s.(slots := s.slots[i := s.slots[i].(validatedAt := at)]), t, Healthy(i, sweep))
    case Reconnected(at) =>
      Move(s.(slots := s.slots[i := s.slots[i].(connection := s.made, validatedAt := at)],
              made := s.made + 1, reconnects := s.reconnects + 1), t, Healthy(i, sweep))
    case Dead => Release(s, t, Outside)
  }

  datatype Action =
    | Acquire                           // enter acquire
    | Lock(cancelled: bool)             // one round of the acquire loop, or of validate_idle
    | Wake                              // notified, or a spurious wake-up
    | TimeOut(cancelled: bool)          // the deadline passed while waiting
    | Ensure(cancelled: bool, health: Health)
    | Return(cancelled: bool)
    | GiveBack                          // the user drops the connection
    | Sweep                             // enter validate_idle

  function Step(s: State, t: Thread, a: Action): State {
    match (PhaseOf(s, t), a)
    case (Outside, Acquire) => Move(s, t, Wanting)
    case (Outside, Sweep) => Move(s, t, Sweeping(0))
    case (Wanting, Lock(cancelled)) =>
      if cancelled then Move(s, t, Outside)
      else (match Scan(s.slots, s.next, 0)
            case None => Move(s, t, Asleep)
            case Some(i) => if i < |s.slots| then Move(Reserve(s, i), t, Reserved(i, false)) else s)
    case (Asleep, Wake) => Move(s, t, Wanting)
    case (Asleep, TimeOut(cancelled)) =>
      Move(if cancelled then s else s.(timeouts := s.timeouts + 1), t, Outside)
    case (Reserved(i, sweep), Ensure(cancelled, health)) =>
      if cancelled && !sweep then Release(s, t, Outside)
      else if i < |s.slots| then Checked(s, t, i, sweep, health) else s
    case (Healthy(i, sweep), Return(cancelled)) =>
      if sweep then Release(s, t, Sweeping(i + 1))
      else if cancelled then Release(s, t, Outside)
      else Move(s, t, Holding(i))
    case (Holding(i), GiveBack) => Release(s, t, Outside)
    case (Sweeping(k), Lock(_)) =>
      if k >= |s.slots| then Move(s, t, Outside)
      else if s.slots[k].leased then Move(s, t, Sweeping(k + 1))
      else Move(SetLeased(s, k, true), t, Reserved(k, true))
    case _ => s
  }

  function Run(s: State, trace: seq<(Thread, Action)>): State
    decreases |trace|
  {
    if trace == [] then s else Run(Step(s, trace[0].0, trace[0].1), trace[1..])
  }

  // ----- the invariant -----

  ghost predicate HeldBy(s: State, t: Thread, i: nat) {
    t in s.threads && Holds(s.threads[t]) == Some(i)
  }

  ghost predicate Leased(s: State, i: nat) {
    i < |s.slots| && s.slots[i].leased
  }

  /** An entry is marked leased exactly when a thread holds a lease on it, and then only one does. */
  ghost predicate Inv(s: State) {
    && (s.slots == [] || s.next < |s.slots|)
    && (forall t, i :: HeldBy(s, t, i) ==> Leased(s, i))
    && (forall t, u, i :: HeldBy(s, t, i) && HeldBy(s, u, i) ==> t == u)
    && (forall i :: Leased(s, i) ==> exists t :: HeldBy(s, t, i))
  }

  /** A step that moves no lease. */
  lemma SameLeases(s: State, s': State, t: Thread, p: Phase)
    requires Inv(s) && s'.threads == s.threads[t := p] && Holds(p) == Holds(PhaseOf(s, t))
    requires s'.next == s.next
    requires |s'.slots| == |s.slots| && forall i :: 0 <= i < |s.slots| ==> s'.slots[i].leased == s.slots[i].leased
    ensures Inv(s')
  {
    forall u, i ensures HeldBy(s', u, i) == HeldBy(s, u, i) {
    }
    forall i: nat ensures Leased(s', i) == Leased(s, i) {
    }
    forall i | Leased(s', i) ensures exists u :: HeldBy(s', u, i) {
      assert Leased(s, i);
      var u :| HeldBy(s, u, i);
      assert HeldBy(s', u, i);
    }
  }

  lemma TakeLease(s: State, s': State, t: Thread, i: nat, p: Phase)
    requires Inv(s) && i < |s.slots| && !s.slots[i].leased && Holds(PhaseOf(s, t)).None? && Holds(p) == Some(i)
    requires s'.threads == s.threads[t := p] && s'.slots == s.slots[i := s.slots[i].(leased := true)]
    requires s'.next < |s'.slots|
    ensures Inv(s')
  {
    assert !Leased(s, i);
    forall u, j ensures HeldBy(s', u, j) == ((u == t && j == i) || HeldBy(s, u, j)) {
    }
    forall j: nat ensures Leased(s', j) == (j == i || Leased(s, j)) {
    }
    forall j | Leased(s', j) ensures exists u :: HeldBy(s', u, j) {
      if j == i {
        assert HeldBy(s', t, i);
      } else {
        assert Leased(s, j);
        var u :| HeldBy(s, u, j);
        assert HeldBy(s', u, j);
      }
    }
  }

  lemma DropLease(s: State, t: Thread, p: Phase)
    requires Inv(s) && Holds(p).None?
    ensures Inv(Release(s, t, p))
    ensures Holds(PhaseOf(s, t)).Some? ==> Holds(PhaseOf(Release(s, t, p), t)).None?
  {
    if Holds(PhaseOf(s, t)).Some? {
      var i := Holds(PhaseOf(s, t)).value;
      assert HeldBy(s, t, i) && Leased(s, i);
      var s' := Release(s, t, p);
      forall u, j ensures HeldBy(s', u, j) == (u != t && HeldBy(s, u, j)) {
      }
      forall j: nat ensures Leased(s', j) == (j != i && Leased(s, j)) {
      }
      forall j | Leased(s', j) ensures exists u :: HeldBy(s', u, j) {
        assert Leased(s, j);
        var u :| HeldBy(s, u, j);
        assert HeldBy(s', u, j);
      }
      forall u, j | HeldBy(s', u, j) ensures Leased(s', j) {
        assert HeldBy(s, u, j);
      }
    }
  }

  predicate LeasedFrom(slots: seq<Slot>, start: nat, k: nat)
    requires k < |slots|
  {
    slots[Wrap(start + k, |slots|)].leased
  }

  /** The scan stops at the first free entry, counted from `start`. */
  lemma {:induction false} ScanFinds(slots: seq<Slot>, start: nat, offset: nat)
    ensures var r := Scan(slots, start, offset);
            && (r.Some? ==> r.value < |slots| && !slots[r.value].leased)
            && (r.None? ==> forall k :: offset <= k < |slots| ==> LeasedFrom(slots, start, k))
    decreases |slots| - offset
  {
    if offset < |slots| && LeasedFrom(slots, start, offset) {
      ScanFinds(slots, start, offset + 1);
    }
  }

  lemma WrapIs(x: nat, size: nat)
    requires 0 < size && x < 2 * size
    ensures Wrap(x, size) == if x < size then x else x - size
  {
    var q, r := x / size, x % size;
    assert x == q * size + r;
    Multiples(q, size);
  }

  lemma Multiples(q: int, size: nat)
    ensures q <= 0 ==> q * size <= 0
    ensures q == 1 ==> q * size == size
    ensures q >= 2 ==> q * size >= 2 * size
  {
  }

  /** A full round of the scan visits every entry, so it comes back empty-handed exactly when
      everything is leased. */
  lemma ScanIsComplete(slots: seq<Slot>, start: nat)
    requires slots == [] || start < |slots|
    ensures Scan(slots, start, 0).None? <==> forall i :: 0 <= i < |slots| ==> slots[i].leased
  {
    hide Wrap;
    ScanFinds(slots, start, 0);
    if Scan(slots, start, 0).None? {
      forall i | 0 <= i < |slots| ensures slots[i].leased {
        var k := if i >= start then i - start else i + |slots| - start;
        WrapIs(start + k, |slots|);
        assert LeasedFrom(slots, start, k);
      }
    }
  }

  lemma LockInv(s: State, t: Thread, cancelled: bool)
    requires Inv(s) && (PhaseOf(s, t).Wanting? || PhaseOf(s, t).Sweeping?)
    ensures Inv(Step(s, t, Lock(cancelled)))
  {
    hide Inv, HeldBy, Wrap, Scan;
    var p, s' := PhaseOf(s, t), Step(s, t, Lock(cancelled));
    ScanFinds(s.slots, s.next, 0);
    var r := Scan(s.slots, s.next, 0);
    if p.Wanting? && !cancelled && r.Some? {
      TakeLease(s, s', t, r.value, Reserved(r.value, false));
    } else if p.Sweeping? && p.next < |s.slots| && !s.slots[p.next].leased {
      NextFits(s);
      TakeLease(s, s', t, p.next, Reserved(p.next, true));
    } else {
      SameLeases(s, s', t, s'.threads[t]);
    }
  }

  lemma NextFits(s: State)
    requires Inv(s) && s.slots != []
    ensures s.next < |s.slots|
  {
  }

  lemma EnsureInv(s: State, t: Thread, cancelled: bool, health: Health)
    requires Inv(s) && PhaseOf(s, t).Reserved?
    ensures Inv(Step(s, t, Ensure(cancelled, health)))
  {
    var s' := Step(s, t, Ensure(cancelled, health));
    DropLease(s, t, Outside);
    hide Inv, HeldBy;
    if s' != s && s' != Release(s, t, Outside) {
      SameLeases(s, s', t, s'.threads[t]);
    }
  }

  lemma ReturnInv(s: State, t: Thread, cancelled: bool)
    requires Inv(s) && PhaseOf(s, t).Healthy?
    ensures Inv(Step(s, t, Return(cancelled)))
  {
    var p, s' := PhaseOf(s, t), Step(s, t, Return(cancelled));
    DropLease(s, t, Outside);
    DropLease(s, t, Sweeping(p.index + 1));
    hide Inv, HeldBy;
    if !p.sweep && !cancelled {
      SameLeases(s, s', t, Holding(p.index));
    }
  }

  lemma StepInv(s: State, t: Thread, a: Action)
    requires Inv(s)
    ensures Inv(Step(s, t, a))
  {
    hide Inv, HeldBy, Wrap, Scan, Checked;
    var p, s' := PhaseOf(s, t), Step(s, t, a);
    if a.Lock? && (p.Wanting? || p.Sweeping?) {
      LockInv(s, t, a.cancelled);
    } else if a.Ensure? && p.Reserved? {
      EnsureInv(s, t, a.cancelled, a.health);
    } else if a.Return? && p.Healthy? {
      ReturnInv(s, t, a.cancelled);
    } else if a.GiveBack? && p.Holding? {
      DropLease(s, t, Outside);
    } else if s' != s {
      SameLeases(s, s', t, s'.threads[t]);
    }
  }

  // ----- connections -----

  /** No two entries ever hold the same connection object. */
  ghost predicate OwnConnections(s: State) {
    && (forall i :: 0 <= i < |s.slots| ==> s.slots[i].connection < s.made)
    && (forall i, j :: 0 <= i < j < |s.slots| ==> s.slots[i].connection != s.slots[j].connection)
  }

  /** One step changes the connection of one entry at most, by a new one, and only the thread that
      holds the entry's lease does that. */
  lemma OnlyHolderReplaces(s: State, t: Thread, a: Action)
    ensures |Step(s, t, a).slots| == |s.slots|
    ensures forall i :: 0 <= i < |s.slots| && Step(s, t, a).slots[i].connection != s.slots[i].connection ==>
              HeldBy(s, t, i) && Step(s, t, a).slots[i].connection == s.made && Step(s, t, a).made == s.made + 1
    ensures Step(s, t, a).made >= s.made
  {
    hide Scan, Wrap;
  }

  lemma StepConnections(s: State, t: Thread, a: Action)
    requires OwnConnections(s) && Inv(s)
    ensures OwnConnections(Step(s, t, a))
  {
    hide Step;
    OnlyHolderReplaces(s, t, a);
    var s' := Step(s, t, a);
    forall i, j | 0 <= i < j < |s.slots| ensures s'.slots[i].connection != s'.slots[j].connection {
      assert !(HeldBy(s, t, i) && HeldBy(s, t, j));
    }
  }

  // ----- whole runs -----

  lemma {:induction false} RunInv(s: State, trace: seq<(Thread, Action)>)
    requires Inv(s) && OwnConnections(s)
    ensures Inv(Run(s, trace)) && OwnConnections(Run(s, trace)) && |Run(s, trace).slots| == |s.slots|
    decreases |trace|
  {
    hide Step, Inv, OwnConnections;
    if trace != [] {
      StepInv(s, trace[0].0, trace[0].1);
      StepConnections(s, trace[0].0, trace[0].1);
      OnlyHolderReplaces(s, trace[0].0, trace[0].1);
      RunInv(Step(s, trace[0].0, trace[0].1), trace[1..]);
    }
  }

  lemma InitialInv(size: nat, now: int)
    ensures Inv(Initial(size, now)) && OwnConnections(Initial(size, now))
  {
  }

  /** The threads that hold a lease on one of the first `k` entries. */
  ghost function HoldersBelow(s: State, k: nat): set<Thread> {
    set t | t in s.threads && Holds(s.threads[t]).Some? && Holds(s.threads[t]).value < k
  }

  function CountLeased(slots: seq<Slot>): (n: nat)
    ensures n <= |slots|
  {
    if slots == [] then 0 else CountLeased(slots[..|slots| - 1]) + if slots[|slots| - 1].leased then 1 else 0
  }

  lemma {:induction false} CountHolders(s: State, k: nat)
    requires Inv(s) && k <= |s.slots|
    ensures |HoldersBelow(s, k)| == CountLeased(s.slots[..k])
  {
    if k == 0 {
      assert HoldersBelow(s, 0) == {};
    } else {
      CountHolders(s, k - 1);
      assert s.slots[..k][..k - 1] == s.slots[..k - 1];
      if s.slots[k - 1].leased {
        assert Leased(s, k - 1);
        var t :| HeldBy(s, t, k - 1);
        assert t !in HoldersBelow(s, k - 1);
        forall u | u in HoldersBelow(s, k) ensures u == t || u in HoldersBelow(s, k - 1) {
          if Holds(s.threads[u]).value == k - 1 {
            assert HeldBy(s, u, k - 1);
          }
        }
        assert HoldersBelow(s, k) == HoldersBelow(s, k - 1) + {t};
      } else {
        forall u | u in HoldersBelow(s, k) ensures u in HoldersBelow(s, k - 1) {
          if Holds(s.threads[u]).value == k - 1 {
            assert HeldBy(s, u, k - 1);
          }
        }
        assert HoldersBelow(s, k) == HoldersBelow(s, k - 1);
      }
    }
  }

  /** POOL EXCLUSIVITY AND CONSERVATION.  In every interleaving of acquire, release, cancellation,
      time-out, failed reconnection and validate_idle: an entry is marked leased exactly when one
      thread holds it; two holders never share an entry or a connection; and the number of leased
      entries is the number of holders, so whoever failed or was cancelled left nothing behind. */
  lemma Exclusive(size: nat, now: int, trace: seq<(Thread, Action)>)
    ensures var s := Run(Initial(size, now), trace);
            && |s.slots| == size
            && (forall i :: 0 <= i < size ==> (s.slots[i].leased <==> exists t :: HeldBy(s, t, i)))
            && (forall t, u, i :: HeldBy(s, t, i) && HeldBy(s, u, i) ==> t == u)
            && OwnConnections(s)
            && |set t | t in s.threads && Holds(s.threads[t]).Some?| == CountLeased(s.slots)
  {
    InitialInv(size, now);
    RunInv(Initial(size, now), trace);
    var s := Run(Initial(size, now), trace);
    hide Run, Initial;
    forall i | 0 <= i < size ensures s.slots[i].leased <==> exists t :: HeldBy(s, t, i) {
      assert Leased(s, i) <==> s.slots[i].leased;
    }
    CountHolders(s, |s.slots|);
    assert s.slots[..|s.slots|] == s.slots;
    forall t | t in s.threads && Holds(s.threads[t]).Some? ensures Holds(s.threads[t]).value < |s.slots| {
      assert HeldBy(s, t, Holds(s.threads[t]).value);
      assert Leased(s, Holds(s.threads[t]).value);
    }
    assert HoldersBelow(s, |s.slots|) == set t | t in s.threads && Holds(s.threads[t]).Some?;
  }

  ghost predicate OthersOnly(trace: seq<(Thread, Action)>, t: Thread) {
    forall k :: 0 <= k < |trace| ==> trace[k].0 != t
  }

  /** While a thread holds a lease, nothing the other threads do moves it or touches its connection. */
  lemma {:induction false} HeldConnectionStays(s: State, t: Thread, i: nat, trace: seq<(Thread, Action)>)
    requires Inv(s) && OwnConnections(s) && HeldBy(s, t, i) && OthersOnly(trace, t)
    ensures i < |s.slots| && |Run(s, trace).slots| == |s.slots|
    ensures HeldBy(Run(s, trace), t, i) && Run(s, trace).slots[i].connection == s.slots[i].connection
    decreases |trace|
  {
    assert Leased(s, i);
    if trace != [] {
      var (u, a) := trace[0];
      StepInv(s, u, a);
      StepConnections(s, u, a);
      OnlyHolderReplaces(s, u, a);
      OtherThread(s, u, a, t);
      assert OthersOnly(trace[1..], t);
      hide Step, Inv, OwnConnections;
      HeldConnectionStays(Step(s, u, a), t, i, trace[1..]);
    }
  }

  lemma OtherThread(s: State, u: Thread, a: Action, t: Thread)
    requires u != t
    ensures PhaseOf(Step(s, u, a), t) == PhaseOf(s, t) && (t in Step(s, u, a).threads <==> t in s.threads)
  {
    hide Scan, Wrap;
  }

  /** A thread goes to sleep exactly when, in that same critical section, every entry is leased;
      otherwise it leaves with a free entry. */
  lemma SleepsOnlyWhenFull(s: State, t: Thread)
    requires Inv(s) && PhaseOf(s, t).Wanting?
    ensures PhaseOf(Step(s, t, Lock(false)), t).Asleep? <==> forall i :: 0 <= i < |s.slots| ==> s.slots[i].leased
    ensures PhaseOf(Step(s, t, Lock(false)), t).Asleep? || PhaseOf(Step(s, t, Lock(false)), t).Reserved?
  {
    ScanIsComplete(s.slots, s.next);
    ScanFinds(s.slots, s.next, 0);
    hide Scan, Wrap;
  }

  // ----- the pool object -----

  /** What ensure_healthy finds: `due` says whether the validation interval has passed, `pingOk` what the
      ping said, `tries` which of the reconnection attempts succeed. */
  ghost function HealthOf(now: int, due: bool, pingOk: bool, attempts: nat, tries: nat -> bool): Health {
    if !due then Fine(None)
    else if pingOk then Fine(Some(now))
    else if exists k :: 0 <= k <= attempts && tries(k) then Reconnected(now)
    else Dead
  }

  /** The shared state, and where each thread is; every method is one critical section of its thread. */
  class ConnectionPool {
    var slots: seq<Slot>
    var next: nat
    var reconnects: nat
    var timeouts: nat
    var made: nat
    var threads: map<Thread, Phase>

    ghost function Now(): State
      reads this
    {
      State(slots, next, reconnects, timeouts, made, threads)
    }

    constructor (size: nat, now: int)
      ensures Now() == Initial(size, now)
    {
      slots := Initial(size, now).slots;
      next, reconnects, timeouts, made, threads := 0, 0, 0, size, map[];
    }

    /** One round of acquire under the lock: reserves the first free entry in cyclic order and moves
        `next` behind it, or goes to sleep. */
    method AcquireRound(t: Thread, cancelled: bool)
      requires t in threads && threads[t].Wanting?
      modifies `slots, `next, `threads
      ensures Now() == Step(old(Now()), t, Lock(cancelled))
    {
      hide Wrap;
      if cancelled {
        threads := threads[t := Outside];
        return;
      }
      var offset := 0;
      while offset < |slots|
        invariant slots == old(slots) && next == old(next) && threads == old(threads)
        invariant 0 <= offset <= |slots| && Scan(slots, next, offset) == Scan(slots, next, 0)
      {
        var i := Wrap(next + offset, |slots|);
        if !slots[i].leased {
          slots, threads := slots[i := slots[i].(leased := true)], threads[t := Reserved(i, false)];
          next := Wrap(i + 1, |slots|);
          return;
        }
        offset := offset + 1;
      }
      threads := threads[t := Asleep];
    }

    /** One entry of validate_idle: a free one is reserved, a leased one passed over. */
    method SweepRound(t: Thread)
      requires t in threads && threads[t].Sweeping?
      modifies `slots, `threads
      ensures Now() == Step(old(Now()), t, Lock(false))
    {
      var k := threads[t].next;
      if k >= |slots| {
        threads := threads[t := Outside];
      } else if slots[k].leased {
        threads := threads[t := Sweeping(k + 1)];
      } else {
        slots, threads := slots[k := slots[k].(leased := true)], threads[t := Reserved(k, true)];
      }
    }

    method TimedOut(t: Thread, cancelled: bool)
      requires t in threads && threads[t].Asleep?
      modifies `timeouts, `threads
      ensures Now() == Step(old(Now()), t, TimeOut(cancelled))
    {
      if !cancelled { timeouts := timeouts + 1; }
      threads := threads[t := Outside];
    }

    /** ~EntryLease: the entry is free, and its thread goes on as `phase`. */
    method ReleaseEntry(t: Thread, phase: Phase)
      requires t in threads && Holds(threads[t]).Some? && Holds(threads[t]).value < |slots|
      modifies `slots, `threads
      ensures Now() == Release(old(Now()), t, phase)
    {
      var i := Holds(threads[t]).value;
      slots, threads := slots[i := slots[i].(leased := false)], threads[t := phase];
    }

    /** ensure_healthy for the thread that reserved entry i; its lease is dropped when all attempts fail. */
    method EnsureHealthy(t: Thread, now: int, due: bool, pingOk: bool, attempts: nat, tries: nat -> bool)
      returns (ok: bool)
      requires t in threads && threads[t].Reserved? && threads[t].index < |slots|
      modifies `slots, `reconnects, `made, `threads
      ensures Now() == Step(old(Now()), t, Ensure(false, HealthOf(now, due, pingOk, attempts, tries)))
      ensures ok <==> !HealthOf(now, due, pingOk, attempts, tries).Dead?
    {
      var i, sweep := threads[t].index, threads[t].sweep;
      if !due {
        threads := threads[t := Healthy(i, sweep)];
        return true;
      }
      if pingOk {
        slots, threads := slots[i := slots[i].(validatedAt := now)], threads[t := Healthy(i, sweep)];
        return true;
      }
      for attempt := 0 to attempts + 1
        invariant slots == old(slots) && made == old(made) && reconnects == old(reconnects) && threads == old(threads)
        invariant forall k :: 0 <= k < attempt ==> !tries(k)
      {
        if tries(attempt) {
          slots, threads := slots[i := slots[i].(connection := made, validatedAt := now)], threads[t := Healthy(i, sweep)];
          made, reconnects := made + 1, reconnects + 1;
          return true;
        }
      }
      ReleaseEntry(t, Outside);
      return false;
    }

    /** stats: leased and available entries always add up to the size. */
    method Stats() returns (size: nat, leased: nat, available: nat, reconnected: nat, timedOut: nat)
      ensures size == |slots| && leased == CountLeased(slots) && leased + available == size
      ensures reconnected == reconnects && timedOut == timeouts
    {
      leased := 0;
      for k := 0 to |slots|
        invariant leased == CountLeased(slots[..k])
      {
        assert slots[..k + 1][..k] == slots[..k];
        if slots[k].leased { leased := leased + 1; }
      }
      assert slots[..|slots|] == slots;
      return |slots|, leased, |slots| - leased, reconnects, timeouts;
    }
  }
}
