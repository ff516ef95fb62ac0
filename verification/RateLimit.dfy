/** Fixed-window request quotas: the Redis script, the client that reads its reply, and the
    in-process store.  Times are milliseconds. */
module RateLimit {
  import opened Text

  /** What a Redis key may hold: a number or not, with or without an expiry. */
  datatype Record = Record(count: Option<int>, expires: Option<nat>)

  datatype Reply = Triple(allowed: int, remaining: int, ttl: int) | ErrorReply

  datatype Decision = Decision(allowed: bool, remaining: nat, retryAfter: nat)

  /** One request: `lingers` says whether a key is still served at the very instant it expires, `clockLeft` how
      far the process's own clock can still count. */
  datatype Call = Call(now: nat, lingers: bool, limit: nat, window: nat, clockLeft: nat)

  /** The largest integer Redis's numbers hold exactly, and the longest window, in milliseconds. */
  const MAX_EXACT := 9007199254740991
  const MAX_WINDOW := MAX_EXACT / 1000 * 1000

  predicate Valid(c: Call) {
    0 < c.limit <= MAX_EXACT && 0 < c.window <= MAX_WINDOW && c.window + 1000 <= c.clockLeft
  }

  predicate Alive(r: Record, c: Call) {
    r.expires.None? || c.now < r.expires.value || (c.lingers && c.now == r.expires.value)
  }

  /** PTTL: -1 stands for a key without expiry. */
  function Ttl(r: Record, now: nat): int {
    if r.expires.None? then -1 else if now < r.expires.value then r.expires.value - now else 0
  }

  /** The script: the key's new content and the reply. */
  function Script(key: Option<Record>, c: Call): (Option<Record>, Reply) {
    if key.None? || !Alive(key.value, c) then
      (Some(Record(Some(1), Some(c.now + c.window))), Triple(1, c.limit - 1, c.window))
    else
      var r := key.value;
      if r.count.None? || r.count.value < 0 || Ttl(r, c.now) < 0 then (key, ErrorReply)
      else if r.count.value >= c.limit then (key, Triple(0, 0, Ttl(r, c.now)))
      else (Some(r.(count := Some(r.count.value + 1))), Triple(1, c.limit - r.count.value - 1, Ttl(r, c.now)))
  }

  function CeilSeconds(milliseconds: nat): nat {
    (milliseconds + 999) / 1000
  }

  /** What consume makes of the reply; None stands for the errors it throws. */
  function Decide(reply: Reply, requests: nat): Option<Decision> {
    if reply.ErrorReply? then None
    else if (reply.allowed != 0 && reply.allowed != 1) || reply.remaining < 0 || reply.remaining > requests
            || reply.ttl < 0 then None
    else
      var seconds := CeilSeconds(reply.ttl);
      Some(Decision(reply.allowed == 1, reply.remaining, if seconds < 1 then 1 else seconds))
  }

  function Replies(key: Option<Record>, calls: seq<Call>): (replies: seq<Option<Decision>>)
    ensures |replies| == |calls|
    decreases |calls|
  {
    if calls == [] then []
    else
      var (next, reply) := Script(key, calls[0]);
      [Decide(reply, calls[0].limit)] + Replies(next, calls[1..])
  }

  // ----- the quota, said without the stored counter -----

  /** Calls at one limit and window, in the order of Redis's clock. */
  ghost predicate Ordered(calls: seq<Call>, limit: nat, window: nat) {
    && limit > 0 && window > 0
    && (forall k :: 0 <= k < |calls| ==> calls[k].limit == limit && calls[k].window == window)
    && (forall j, k :: 0 <= j < k < |calls| ==> calls[j].now <= calls[k].now)
  }

  /** The window opened by call s still holds for call k. */
  predicate Within(calls: seq<Call>, s: nat, k: nat)
    requires s < |calls| && k < |calls|
  {
    var end := calls[s].now + calls[s].window;
    calls[k].now < end || (calls[k].lingers && calls[k].now == end)
  }

  /** The call that opened the window of call k. */
  function Opener(calls: seq<Call>, k: nat): (s: nat)
    requires k < |calls|
    ensures s <= k
  {
    if k == 0 then 0
    else
      var s := Opener(calls, k - 1);
      if Within(calls, s, k) then s else k
  }

  /** The k-th call is admitted when fewer than `limit` calls of its window came before it. */
  predicate Admitted(calls: seq<Call>, k: nat)
    requires k < |calls|
  {
    k - Opener(calls, k) < calls[k].limit
  }

  function Expected(calls: seq<Call>, k: nat): Decision
    requires k < |calls|
  {
    var s := Opener(calls, k);
    var left := calls[k].limit - (k - s) - 1;
    var end := calls[s].now + calls[s].window;
    var seconds := if calls[k].now < end then CeilSeconds(end - calls[k].now) else 0;
    Decision(left >= 0, if left >= 0 then left else 0, if seconds < 1 then 1 else seconds)
  }

  /** The stored counter is the number of calls in the window so far, stopping at the limit. */
  ghost predicate Counts(key: Option<Record>, calls: seq<Call>, n: nat)
    requires n <= |calls|
  {
    if n == 0 then key.None?
    else
      var s := Opener(calls, n - 1);
      var used := if n - s < calls[n - 1].limit then n - s else calls[n - 1].limit;
      key == Some(Record(Some(used), Some(calls[s].now + calls[s].window)))
  }

  lemma ScriptCounts(key: Option<Record>, calls: seq<Call>, n: nat, limit: nat, window: nat)
    requires n < |calls| && Ordered(calls, limit, window) && Counts(key, calls, n)
    ensures Counts(Script(key, calls[n]).0, calls, n + 1)
    ensures Decide(Script(key, calls[n]).1, limit) == Some(Expected(calls, n))
  {
    if n > 0 {
      var s := Opener(calls, n - 1);
      assert Alive(key.value, calls[n]) == Within(calls, s, n);
    }
  }

  lemma {:induction false} RunCounts(key: Option<Record>, calls: seq<Call>, n: nat, k: nat, limit: nat, window: nat)
    requires n <= k < |calls| && Ordered(calls, limit, window) && Counts(key, calls, n)
    ensures Replies(key, calls[n..])[k - n] == Some(Expected(calls, k))
    decreases k - n
  {
    hide Expected, Counts, Decide, Script, Ordered;
    ScriptCounts(key, calls, n, limit, window) by { assert Ordered(calls, limit, window); }
    var rest := calls[n..];
    assert rest[0] == calls[n] && rest[1..] == calls[n + 1..];
    assert calls[n].limit == limit by { LimitAt(calls, limit, window, n); }
    if n < k {
      RunCounts(Script(key, calls[n]).0, calls, n + 1, k, limit, window);
    }
  }

  lemma LimitAt(calls: seq<Call>, limit: nat, window: nat, n: nat)
    requires Ordered(calls, limit, window) && n < |calls|
    ensures calls[n].limit == limit && calls[n].window == window
  {
  }

  /** The fewest whole seconds, one at least, after which the window that ends then is over. */
  predicate LeastWait(now: nat, end: nat, seconds: nat) {
    seconds >= 1 && now + seconds * 1000 >= end && (seconds > 1 ==> now + (seconds - 1) * 1000 < end)
  }

  /** QUOTA.  Whatever clients share the key, call k is admitted exactly when fewer than `limit` calls
      of its window came before, is told how many are left and how long the window still lasts, and
      never sees an error. */
  lemma Quota(calls: seq<Call>, k: nat, limit: nat, window: nat)
    requires k < |calls| && Ordered(calls, limit, window)
    ensures Replies(None, calls)[k] == Some(Expected(calls, k))
    ensures Expected(calls, k).allowed <==> Admitted(calls, k)
    ensures Expected(calls, k).allowed ==> Expected(calls, k).remaining + (k - Opener(calls, k)) + 1 == limit
    ensures !Expected(calls, k).allowed ==> Expected(calls, k).remaining == 0
    ensures LeastWait(calls[k].now, calls[Opener(calls, k)].now + window, Expected(calls, k).retryAfter)
  {
    assert calls[0..] == calls;
    RunCounts(None, calls, 0, k, limit, window);
  }

  // ----- two windows at most -----

  /** Admitted calls among the first n with a time in [t, t + window). */
  function AdmittedIn(calls: seq<Call>, n: nat, t: nat, window: nat): nat
    requires n <= |calls|
  {
    if n == 0 then 0
    else
      AdmittedIn(calls, n - 1, t, window)
      + (if t <= calls[n - 1].now < t + window && Admitted(calls, n - 1) then 1 else 0)
  }

  /** How many can have been admitted when the current window opened at `start`, n - s calls ago. */
  function Bound(start: nat, since: nat, t: nat, window: nat, limit: nat): nat {
    var here := if since < limit then since else limit;
    if start < t then here else if start < t + window then limit + here else 2 * limit
  }

  lemma {:induction false} BoundHolds(calls: seq<Call>, n: nat, t: nat, limit: nat, window: nat)
    requires 0 < n <= |calls| && Ordered(calls, limit, window)
    ensures var s := Opener(calls, n - 1);
            AdmittedIn(calls, n, t, window) <= Bound(calls[s].now, n - s, t, window, limit)
    ensures calls[n - 1].now < t ==> AdmittedIn(calls, n, t, window) == 0
  {
    if n > 1 {
      BoundHolds(calls, n - 1, t, limit, window);
      assert calls[n - 2].now <= calls[n - 1].now;
      var s := Opener(calls, n - 2);
      assert calls[s].now <= calls[n - 1].now;
    }
  }

  /** Any half-open interval as long as the window admits at most twice the limit. */
  lemma AtMostTwice(calls: seq<Call>, t: nat, limit: nat, window: nat)
    requires Ordered(calls, limit, window)
    ensures AdmittedIn(calls, |calls|, t, window) <= 2 * limit
  {
    if calls != [] {
      BoundHolds(calls, |calls|, t, limit, window);
    }
  }

  // ----- the in-process store answers alike -----

  datatype Bucket = Bucket(count: nat, reset: nat)

  type Buckets = map<string, Bucket>

  function Evicted(b: Buckets, now: nat): Buckets {
    map key | key in b && b[key].reset > now :: b[key]
  }

  function Held(b: Buckets, key: string): Option<Bucket> {
    if key in b then Some(b[key]) else None
  }

  /** One request on its bucket: the bucket afterwards and the decision. */
  function Draw(held: Option<Bucket>, c: Call): (Bucket, Decision) {
    var bucket := if held.Some? && held.value.reset > c.now then held.value else Bucket(0, c.now + c.window);
    var count := if bucket.count < c.limit then bucket.count + 1 else bucket.count;
    (bucket.(count := count),
     Decision(bucket.count < c.limit, if count >= c.limit then 0 else c.limit - count,
              CeilSeconds(bucket.reset - c.now)))
  }

  function Kept(b: Buckets, capacity: nat, key: string, now: nat): Buckets {
    if key !in b && |b| >= capacity then Evicted(b, now) else b
  }

  /** Refused for want of room, even after dropping the windows that have run out. */
  predicate Full(b: Buckets, capacity: nat, key: string, now: nat) {
    var kept := Kept(b, capacity, key, now);
    key !in kept && |kept| >= capacity
  }

  /** MemoryRateLimitStore::consume: the buckets afterwards and the decision. */
  function Memory(b: Buckets, capacity: nat, key: string, c: Call): (Buckets, Decision) {
    var kept := Kept(b, capacity, key, c.now);
    if Full(b, capacity, key, c.now) then (kept, Decision(false, 0, CeilSeconds(c.window)))
    else
      var (bucket, decision) := Draw(Held(kept, key), c);
      (kept[key := bucket], decision)
  }

  type Keys = map<string, Record>

  function At(keys: Keys, key: string): Option<Record> {
    if key in keys then Some(keys[key]) else None
  }

  function Redis(keys: Keys, key: string, c: Call): (Keys, Option<Decision>) {
    var (record, reply) := Script(At(keys, key), c);
    (if record.Some? then keys[key := record.value] else keys, Decide(reply, c.limit))
  }

  /** The same live window, or none on either side. */
  ghost predicate SameWindow(held: Option<Bucket>, record: Option<Record>, now: nat) {
    && (held.Some? && held.value.reset > now ==>
          record == Some(Record(Some(held.value.count), Some(held.value.reset))))
    && (record.Some? ==>
          && record.value.expires.Some?
          && (record.value.expires.value > now ==> held.Some? && held.value.reset == record.value.expires.value))
  }

  ghost predicate Same(b: Buckets, keys: Keys, now: nat) {
    forall key :: SameWindow(Held(b, key), At(keys, key), now)
  }

  lemma DrawAgrees(held: Option<Bucket>, record: Option<Record>, c: Call)
    requires SameWindow(held, record, c.now) && Valid(c) && !c.lingers
    ensures Decide(Script(record, c).1, c.limit) == Some(Draw(held, c).1)
    ensures SameWindow(Some(Draw(held, c).0), Script(record, c).0, c.now)
  {
  }

  /** Dropping windows that have run out changes nothing. */
  lemma EvictionUnseen(b: Buckets, keys: Keys, capacity: nat, key: string, now: nat)
    requires Same(b, keys, now)
    ensures Same(Kept(b, capacity, key, now), keys, now)
  {
    var kept := Kept(b, capacity, key, now);
    forall k ensures SameWindow(Held(kept, k), At(keys, k), now) {
      assert SameWindow(Held(b, k), At(keys, k), now);
    }
  }

  lemma StoresAgree(b: Buckets, keys: Keys, capacity: nat, key: string, c: Call)
    requires Same(b, keys, c.now) && Valid(c) && !c.lingers
    ensures Full(b, capacity, key, c.now) ==> Same(Memory(b, capacity, key, c).0, keys, c.now)
    ensures !Full(b, capacity, key, c.now) ==>
              && Redis(keys, key, c).1 == Some(Memory(b, capacity, key, c).1)
              && Same(Memory(b, capacity, key, c).0, Redis(keys, key, c).0, c.now)
  {
    EvictionUnseen(b, keys, capacity, key, c.now);
    var kept := Kept(b, capacity, key, c.now);
    if !Full(b, capacity, key, c.now) {
      assert SameWindow(Held(kept, key), At(keys, key), c.now);
      DrawAgrees(Held(kept, key), At(keys, key), c);
      var b', keys' := Memory(b, capacity, key, c).0, Redis(keys, key, c).0;
      hide SameWindow, Draw, Script, Decide, Kept;
      forall k ensures SameWindow(Held(b', k), At(keys', k), c.now) {
        if k != key {
          assert SameWindow(Held(kept, k), At(keys, k), c.now);
        }
      }
    }
  }

  datatype Request = Request(key: string, call: Call)

  ghost predicate InOrder(requests: seq<Request>) {
    && (forall k :: 0 <= k < |requests| ==> Valid(requests[k].call) && !requests[k].call.lingers)
    && (forall j, k :: 0 <= j < k < |requests| ==> requests[j].call.now <= requests[k].call.now)
  }

  /** Both stores at once, the shared one spared the refusals for want of room: do they always give
      the same decision? */
  ghost predicate AlwaysAgree(b: Buckets, keys: Keys, capacity: nat, requests: seq<Request>)
    decreases |requests|
  {
    requests == [] ||
    var key, c := requests[0].key, requests[0].call;
    var (b', decision) := Memory(b, capacity, key, c);
    if Full(b, capacity, key, c.now) then AlwaysAgree(b', keys, capacity, requests[1..])
    else
      var (keys', shared) := Redis(keys, key, c);
      shared == Some(decision) && AlwaysAgree(b', keys', capacity, requests[1..])
  }

  lemma SameLater(b: Buckets, keys: Keys, now: nat, later: nat)
    requires Same(b, keys, now) && now <= later
    ensures Same(b, keys, later)
  {
    forall key ensures SameWindow(Held(b, key), At(keys, key), later) {
      assert SameWindow(Held(b, key), At(keys, key), now);
    }
  }

  /** THE TWO STORES AGREE.  Over any requests for any keys, limits and windows, every decision of the
      in-process store is the shared store's decision on the same requests, except the refusals
      made because the table is full of live clients. */
  lemma {:induction false} RunsAgree(b: Buckets, keys: Keys, capacity: nat, requests: seq<Request>)
    requires InOrder(requests) && (requests != [] ==> Same(b, keys, requests[0].call.now))
    ensures AlwaysAgree(b, keys, capacity, requests)
    decreases |requests|
  {
    if requests != [] {
      var key, c := requests[0].key, requests[0].call;
      StoresAgree(b, keys, capacity, key, c);
      var b' := Memory(b, capacity, key, c).0;
      var keys' := if Full(b, capacity, key, c.now) then keys else Redis(keys, key, c).0;
      hide Memory, Redis, Same, Full, Valid;
      if |requests| > 1 {
        SameLater(b', keys', c.now, requests[1].call.now);
      }
      assert InOrder(requests[1..]);
      RunsAgree(b', keys', capacity, requests[1..]);
    }
  }

  // ----- the table of the in-process store -----

  function Live(b: Buckets, now: nat): set<string> {
    set key | key in b && b[key].reset > now
  }

  lemma EvictedKeys(b: Buckets, now: nat)
    ensures Evicted(b, now).Keys == Live(b, now) && |Evicted(b, now)| == |Live(b, now)| <= |b|
  {
    assert Evicted(b, now).Keys == Live(b, now);
    Fewer(Live(b, now), b.Keys);
  }

  lemma {:induction false} Fewer(a: set<string>, b: set<string>)
    requires a <= b
    ensures |a| <= |b|
    decreases a
  {
    if a != {} {
      var x :| x in a;
      Fewer(a - {x}, b - {x});
    }
  }

  /** ROOM.  A request is refused for want of room exactly when its client is unknown and as many others as the table
      holds have windows still open; otherwise its window is found or opened.  The table never outgrows its capacity. */
  lemma RoomExactly(b: Buckets, capacity: nat, key: string, c: Call)
    requires |b| <= capacity && Valid(c)
    ensures Full(b, capacity, key, c.now) <==> key !in b && |Live(b, c.now)| >= capacity
    ensures var (after, decision) := Memory(b, capacity, key, c);
            && |after| <= capacity
            && (Full(b, capacity, key, c.now) ==> !decision.allowed && decision.remaining == 0 && LeastWait(0, c.window, decision.retryAfter))
            && (!Full(b, capacity, key, c.now) ==> key in after && after[key].reset > c.now)
            && (forall other :: other != key && other in b && b[other].reset > c.now ==> other in after && after[other] == b[other])
  {
    EvictedKeys(b, c.now);
    var kept := Kept(b, capacity, key, c.now);
    assert forall other :: other in b && b[other].reset > c.now ==> other in kept && kept[other] == b[other];
    hide Evicted, Live;
    if key in kept {
      assert kept[key := Draw(Held(kept, key), c).0].Keys == kept.Keys;
    } else {
      assert kept[key := Draw(Held(kept, key), c).0].Keys == kept.Keys + {key};
    }
  }

  // ----- records the script does not trust -----

  /** A live record that is no count, or has no end, is reported and left alone; nothing else is an error. */
  lemma RecordChecked(key: Option<Record>, c: Call)
    requires Valid(c)
    ensures Decide(Script(key, c).1, c.limit).None? <==>
            key.Some? && Alive(key.value, c) && (key.value.expires.None? || key.value.count.None? || key.value.count.value < 0)
    ensures Decide(Script(key, c).1, c.limit).None? ==> Script(key, c).0 == key
  {
  }

  /** Whatever a reply says, a decision is made only of a sensible one. */
  lemma ReplyChecked(reply: Reply, requests: nat)
    ensures Decide(reply, requests).Some? <==>
            reply.Triple? && reply.allowed in {0, 1} && 0 <= reply.remaining <= requests && reply.ttl >= 0
    ensures Decide(reply, requests).Some? ==>
              var d := Decide(reply, requests).value;
              d.allowed == (reply.allowed == 1) && d.remaining == reply.remaining && LeastWait(0, reply.ttl, d.retryAfter)
  {
  }

  /** Every number of a window that began in the script is one Redis holds exactly. */
  ghost predicate Exact(key: Option<Record>) {
    key.Some? && key.value.count.Some? ==> key.value.count.value <= 9007199254740991
  }

  lemma StaysExact(key: Option<Record>, c: Call)
    requires Valid(c) && Exact(key) && (key.Some? && key.value.expires.Some? ==> key.value.expires.value <= c.now + 9007199254740000)
    ensures Exact(Script(key, c).0)
    ensures var reply := Script(key, c).1;
            reply.Triple? ==> 0 <= reply.remaining <= 9007199254740991 && -1 <= reply.ttl <= 9007199254740000
  {
  }

  // ----- the store objects -----

  /** No quota, no window, or more than Redis's numbers or the process's clock can hold. */
  predicate OutOfRange(c: Call) {
    || c.limit == 0 || c.limit > 9_007_199_254_740_991 || c.window == 0 || c.window > 9_007_199_254_740_000
    || c.window > c.clockLeft - 1000
  }

  lemma RangeExactly(c: Call)
    ensures Valid(c) <==> !OutOfRange(c)
  {
  }

  class RedisStore {
    var keys: Keys

    constructor ()
      ensures keys == map[]
    {
      keys := map[];
    }

    /** Rejects an empty key or an empty quota before anything is sent. */
    method Consume(key: string, c: Call) returns (r: Option<Decision>)
      modifies this
      ensures key == "" || OutOfRange(c) ==> r == None && keys == old(keys)
      ensures key != "" && !OutOfRange(c) ==> (keys, r) == Redis(old(keys), key, c)
    {
      if key == "" || !Valid(c) { return None; }
      if key !in keys || !Alive(keys[key], c) {
        keys := keys[key := Record(Some(1), Some(c.now + c.window))];
        return Decide(Triple(1, c.limit - 1, c.window), c.limit);
      }
      var count, ttl := keys[key].count, Ttl(keys[key], c.now);
      if count.None? || count.value < 0 || ttl < 0 {
        assert keys[key := keys[key]] == keys;
        return None;
      }
      if count.value >= c.limit {
        assert keys[key := keys[key]] == keys;
        return Decide(Triple(0, 0, ttl), c.limit);
      }
      keys := keys[key := keys[key].(count := Some(count.value + 1))];
      return Decide(Triple(1, c.limit - count.value - 1, ttl), c.limit);
    }
  }

  class MemoryStore {
    const capacity: nat
    var buckets: Buckets

    constructor (capacity: nat)
      ensures this.capacity == capacity && buckets == map[]
    {
      this.capacity := capacity;
      buckets := map[];
    }

    method Consume(key: string, c: Call) returns (r: Option<Decision>)
      modifies this
      ensures key == "" || OutOfRange(c) ==> r == None && buckets == old(buckets)
      ensures key != "" && !OutOfRange(c) ==>
                buckets == Memory(old(buckets), capacity, key, c).0
                && r == Some(Memory(old(buckets), capacity, key, c).1)
    {
      if key == "" || !Valid(c) { return None; }
      if key !in buckets && |buckets| >= capacity {
        buckets := Evicted(buckets, c.now);
      }
      if key !in buckets && |buckets| >= capacity {
        return Some(Decision(false, 0, CeilSeconds(c.window)));
      }
      if key !in buckets || buckets[key].reset <= c.now {
        buckets := buckets[key := Bucket(0, c.now + c.window)];
      }
      var allowed := buckets[key].count < c.limit;
      if allowed {
        buckets := buckets[key := buckets[key].(count := buckets[key].count + 1)];
      }
      var count := buckets[key].count;
      r := Some(Decision(allowed, if count >= c.limit then 0 else c.limit - count,
                         CeilSeconds(buckets[key].reset - c.now)));
    }
  }
}
