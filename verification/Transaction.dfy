/** `Transaction` and `AsyncTransaction`: objects that hold a scope token and finish it by
    committing, rolling back or being destroyed, in whatever order their owners choose. */
module Transactions {
  import opened Text
  import opened Driver
  import opened Scopes
  import opened ScopeRefinement
  import opened ScopeHistory
  import opened ConnectionObject

  /** `expiry` is the start time plus the timeout of an AsyncTransaction. */
  datatype Tx = Tx(token: Token, active: bool, expiry: Option<int>)

  predicate IsExpired(tx: Tx, now: int) {
    tx.expiry.Some? && now >= tx.expiry.value
  }

  /** The constructors: a timeout that is not positive is refused before begin_scope is called. */
  function OpenTx<D>(env: Env, s: State<D>, now: int, timeout: Option<int>, ok: bool): (State<D>, Reply<Tx>)
    requires Shaped(s)
  {
    if timeout.Some? && timeout.value <= 0 then (s, Throws(InvalidTimeout))
    else
      var (t, reply) := BeginScope(env, s, ok);
      if reply.Throws? then (t, Throws(reply.fault))
      else (t, Done(Tx(reply.value, true, if timeout.Some? then Some(now + timeout.value) else None)))
  }

  function CommitTx<D>(env: Env, s: State<D>, tx: Tx, now: int, ok: bool): (State<D>, Tx, Reply<()>)
    requires Shaped(s)
  {
    if !tx.active then (s, tx, Done(()))
    else if IsExpired(tx, now) then (s, tx, Throws(Expired))
    else
      var (t, reply) := CommitScope(env, s, tx.token, ok);
      (t, tx.(active := reply.Throws? && t.depth != 0), reply)
  }

  function RollbackTx<D>(env: Env, s: State<D>, tx: Tx, ok: bool): (State<D>, Tx, Reply<()>)
    requires Shaped(s)
  {
    if !tx.active then (s, tx, Done(()))
    else
      var (t, reply) := RollbackScope(env, s, tx.token, ok);
      (t, tx.(active := reply.Throws?), reply)
  }

  // ----- the objects -----

  class Transaction<D> {
    const connection: Connection<D>
    const token: Token
    const expiry: Option<int>
    var active: bool

    function AsTx(): Tx
      reads this
    {
      Tx(token, active, expiry)
    }

    constructor Adopt(connection: Connection<D>, token: Token, expiry: Option<int>)
      ensures this.connection == connection && AsTx() == Tx(token, true, expiry)
    {
      this.connection, this.token, this.expiry, active := connection, token, expiry, true;
    }

    /** A failing constructor leaves no object behind. */
    static method Open(connection: Connection<D>, now: int, timeout: Option<int>, ok: bool)
      returns (tx: Transaction?<D>, reply: Reply<Tx>)
      requires connection.Valid()
      modifies connection
      ensures connection.Valid()
      ensures (connection.Now(), reply) == OpenTx(connection.env, old(connection.Now()), now, timeout, ok)
      ensures reply.Throws? <==> tx == null
      ensures tx != null ==> fresh(tx) && tx.connection == connection && tx.AsTx() == reply.value
    {
      tx := null;
      if timeout.Some? && timeout.value <= 0 { return null, Throws(InvalidTimeout); }
      var begun := connection.BeginScope(ok);
      if begun.Throws? { return null, Throws(begun.fault); }
      tx := new Transaction<D>.Adopt(connection, begun.value, if timeout.Some? then Some(now + timeout.value) else None);
      reply := Done(tx.AsTx());
    }

    method Commit(now: int, ok: bool) returns (reply: Reply<()>)
      requires connection.Valid()
      modifies this, connection
      ensures connection.Valid()
      ensures (connection.Now(), AsTx(), reply) ==
              CommitTx(connection.env, old(connection.Now()), old(AsTx()), now, ok)
    {
      if !active { return Done(()); }
      if expiry.Some? && now >= expiry.value { return Throws(Expired); }
      reply := connection.CommitScope(token, ok);
      if reply.Done? || connection.depth == 0 {
        active := false;
      }
    }

    method Rollback(ok: bool) returns (reply: Reply<()>)
      requires connection.Valid()
      modifies this, connection
      ensures connection.Valid()
      ensures (connection.Now(), AsTx(), reply) ==
              RollbackTx(connection.env, old(connection.Now()), old(AsTx()), ok)
    {
      if !active { return Done(()); }
      reply := connection.RollbackScope(token, ok);
      if reply.Done? {
        active := false;
      }
    }

    /** The destructor rolls an active transaction back and swallows any failure. */
    method Destroy(ok: bool)
      requires connection.Valid()
      modifies this, connection
      ensures connection.Valid()
      ensures var (t, tx, _) := RollbackTx(connection.env, old(connection.Now()), old(AsTx()), ok);
              connection.Now() == t && AsTx() == tx
    {
      if active {
        var _ := Rollback(ok);
      }
    }
  }

  // ----- histories of any number of transaction objects on one connection -----

  datatype World<D> = World(conn: State<D>, txs: seq<Tx>)

  datatype Act<D> =
    | Open(now: int, timeout: Option<int>, ok: bool)
    | CommitAt(tx: nat, now: int, ok: bool)
    | RollbackAt(tx: nat, ok: bool)
    | Destroy(tx: nat, ok: bool)
    | Work(callback: Option<Callback>)
    | Write(contents: D, ok: bool)

  /** The connection operation an action amounts to, if it reaches the connection. */
  function OpOf<D>(w: World<D>, act: Act<D>): seq<Op<D>> {
    match act
    case Open(_, timeout, ok) => if timeout.Some? && timeout.value <= 0 then [] else [OpBeginScope(ok)]
    case CommitAt(k, now, ok) =>
      if k < |w.txs| && w.txs[k].active && !IsExpired(w.txs[k], now) then [OpCommitScope(w.txs[k].token, ok)] else []
    case RollbackAt(k, ok) => if k < |w.txs| && w.txs[k].active then [OpRollbackScope(w.txs[k].token, ok)] else []
    case Destroy(k, ok) => if k < |w.txs| && w.txs[k].active then [OpRollbackScope(w.txs[k].token, ok)] else []
    case Work(callback) => [OpAfterCommit(callback)]
    case Write(contents, ok) => [OpExecute(contents, ok)]
  }

  function Act1<D>(env: Env, w: World<D>, act: Act<D>): (v: World<D>)
    requires Shaped(w.conn)
    ensures Shaped(v.conn)
  {
    match act
    case Open(now, timeout, ok) =>
      var (t, reply) := OpenTx(env, w.conn, now, timeout, ok);
      World(t, if reply.Throws? then w.txs else w.txs + [reply.value])
    case CommitAt(k, now, ok) =>
      if k >= |w.txs| then w
      else var (t, tx, _) := CommitTx(env, w.conn, w.txs[k], now, ok); World(t, w.txs[k := tx])
    case RollbackAt(k, ok) =>
      if k >= |w.txs| then w
      else var (t, tx, _) := RollbackTx(env, w.conn, w.txs[k], ok); World(t, w.txs[k := tx])
    case Destroy(k, ok) =>
      if k >= |w.txs| then w
      else var (t, tx, _) := RollbackTx(env, w.conn, w.txs[k], ok); World(t, w.txs[k := tx])
    case Work(callback) => w.(conn := AfterCommit(env, w.conn, callback).0)
    case Write(contents, ok) => w.(conn := Execute(w.conn, contents, ok).0)
  }

  function Acts<D>(env: Env, w: World<D>, acts: seq<Act<D>>): (v: World<D>)
    requires Shaped(w.conn)
    ensures Shaped(v.conn)
    decreases |acts|
  {
    if acts == [] then w else Acts(env, Act1(env, w, acts[0]), acts[1..])
  }

  function OpsOf<D>(env: Env, w: World<D>, acts: seq<Act<D>>): seq<Op<D>>
    requires Shaped(w.conn)
    decreases |acts|
  {
    if acts == [] then [] else OpOf(w, acts[0]) + OpsOf(env, Act1(env, w, acts[0]), acts[1..])
  }

  // ----- every such history is an honest run of the connection -----

  ghost predicate Holds(txs: seq<Tx>, issued: set<Token>) {
    forall k :: 0 <= k < |txs| ==> txs[k].token in issued
  }

  lemma ActIsStep<D>(env: Env, w: World<D>, act: Act<D>)
    requires Shaped(w.conn)
    ensures Act1(env, w, act).conn == Run(env, w.conn, OpOf(w, act))
  {
    if OpOf(w, act) != [] {
      assert Run(env, w.conn, OpOf(w, act)) == Step(env, w.conn, OpOf(w, act)[0]);
    }
  }

  ghost function IssuedAfter<D>(env: Env, w: World<D>, issued: set<Token>, act: Act<D>): set<Token>
    requires Shaped(w.conn)
  {
    if OpOf(w, act) == [] then issued else issued + HandedOut(env, w.conn, OpOf(w, act)[0])
  }

  lemma HoldsAfter<D>(env: Env, w: World<D>, issued: set<Token>, act: Act<D>)
    requires Shaped(w.conn) && Holds(w.txs, issued)
    ensures Holds(Act1(env, w, act).txs, IssuedAfter(env, w, issued, act))
  {
  }

  lemma HonestCons<D>(env: Env, s: State<D>, issued: set<Token>, op: Op<D>, rest: seq<Op<D>>)
    requires Shaped(s)
    requires op.OpCommitScope? || op.OpRollbackScope? ==> op.token in issued
    requires Honest(env, Step(env, s, op), issued + HandedOut(env, s, op), rest)
    ensures Honest(env, s, issued, [op] + rest)
    ensures Run(env, s, [op] + rest) == Run(env, Step(env, s, op), rest)
    ensures IssuedBy(env, s, issued, [op] + rest) == IssuedBy(env, Step(env, s, op), issued + HandedOut(env, s, op), rest)
  {
    assert ([op] + rest)[0] == op && ([op] + rest)[1..] == rest;
  }

  /** Transaction objects only ever present tokens that begin_scope handed out, so everything
      proved of honest runs holds of every history of transaction objects. */
  lemma {:induction false} ObjectsAreHonest<D>(env: Env, w: World<D>, issued: set<Token>, acts: seq<Act<D>>)
    requires Shaped(w.conn) && Holds(w.txs, issued)
    ensures Acts(env, w, acts).conn == Run(env, w.conn, OpsOf(env, w, acts))
    ensures Honest(env, w.conn, issued, OpsOf(env, w, acts))
    ensures Holds(Acts(env, w, acts).txs, IssuedBy(env, w.conn, issued, OpsOf(env, w, acts)))
    decreases |acts|
  {
    if acts != [] {
      var v, first := Act1(env, w, acts[0]), OpOf(w, acts[0]);
      ActIsStep(env, w, acts[0]);
      HoldsAfter(env, w, issued, acts[0]);
      ObjectsAreHonest(env, v, IssuedAfter(env, w, issued, acts[0]), acts[1..]);
      var rest := OpsOf(env, v, acts[1..]);
      if first == [] {
        assert first + rest == rest;
      } else {
        assert first == [first[0]];
        HonestCons(env, w.conn, issued, first[0], rest);
      }
    }
  }

  // ----- open scopes and active objects -----

  /** A scope is open exactly when one active object holds its token, and only that object does. */
  ghost predicate Owned<D>(w: World<D>) {
    && Ascending(w.conn.scopeIds, w.conn.scopeSequence)
    && OwnIds(w.txs, w.conn.scopeSequence)
    && ActiveOpen(w.txs, w.conn.scopeIds)
    && OpenActive(w.txs, w.conn.scopeIds)
  }

  ghost predicate OwnIds(txs: seq<Tx>, limit: nat) {
    && (forall k :: 0 <= k < |txs| ==> 1 <= txs[k].token.scopeId <= limit)
    && (forall j, k :: 0 <= j < k < |txs| ==> txs[j].token.scopeId != txs[k].token.scopeId)
  }

  ghost predicate ActiveOpen(txs: seq<Tx>, ids: seq<nat>) {
    forall k :: 0 <= k < |txs| && txs[k].active ==> txs[k].token.scopeId in ids
  }

  ghost predicate OpenActive(txs: seq<Tx>, ids: seq<nat>) {
    forall id :: id in ids ==> exists k :: 0 <= k < |txs| && txs[k].active && txs[k].token.scopeId == id
  }

  /** What ending or failing to end a scope through object k does to the connection's open ids. */
  lemma EndThrough<D>(env: Env, w: World<D>, k: nat, now: int, ok: bool)
    requires Shaped(w.conn) && Owned(w) && k < |w.txs| && w.txs[k].active
    ensures var (t, tx, _) := CommitTx(env, w.conn, w.txs[k], now, ok);
            if tx.active then t == w.conn else Removed(w.conn, t, tx.token.scopeId)
    ensures var (t, tx, _) := RollbackTx(env, w.conn, w.txs[k], ok);
            if tx.active then t == w.conn else Removed(w.conn, t, tx.token.scopeId)
  {
    assert w.txs[k].token.scopeId in w.conn.scopeIds;
  }

  /** The innermost scope, and it alone, is gone. */
  ghost predicate Removed<D>(s: State<D>, t: State<D>, id: nat) {
    && s.scopeIds != [] && s.scopeIds[|s.scopeIds| - 1] == id
    && t.scopeIds == s.scopeIds[..|s.scopeIds| - 1] && t.scopeSequence == s.scopeSequence
  }

  lemma OwnedAfterEnd<D>(w: World<D>, k: nat, t: State<D>)
    requires Owned(w) && k < |w.txs| && w.txs[k].active && Removed(w.conn, t, w.txs[k].token.scopeId)
    ensures Owned(World(t, w.txs[k := w.txs[k].(active := false)]))
  {
    var txs, n := w.txs[k := w.txs[k].(active := false)], |w.conn.scopeIds| - 1;
    assert OwnIds(txs, t.scopeSequence);
    assert Ascending(t.scopeIds, t.scopeSequence);
    ActiveAfterEnd(w.txs, w.conn.scopeIds, k, txs);
    OpenAfterEnd(w.txs, w.conn.scopeIds, w.conn.scopeSequence, k, txs);
    hide OwnIds, Ascending, ActiveOpen, OpenActive;
  }

  lemma ActiveAfterEnd(was: seq<Tx>, ids: seq<nat>, k: nat, txs: seq<Tx>)
    requires k < |was| && txs == was[k := was[k].(active := false)] && ActiveOpen(was, ids)
    requires ids != [] && ids[|ids| - 1] == was[k].token.scopeId
    requires forall i, j :: 0 <= i < j < |was| ==> was[i].token.scopeId != was[j].token.scopeId
    ensures ActiveOpen(txs, ids[..|ids| - 1])
  {
    var n := |ids| - 1;
    forall j | 0 <= j < |txs| && txs[j].active ensures txs[j].token.scopeId in ids[..n] {
      assert was[j].token.scopeId in ids;
      var p :| 0 <= p <= n && ids[p] == was[j].token.scopeId;
      assert ids[..n][p] == txs[j].token.scopeId;
    }
  }

  lemma OpenAfterEnd(was: seq<Tx>, ids: seq<nat>, limit: nat, k: nat, txs: seq<Tx>)
    requires k < |was| && txs == was[k := was[k].(active := false)] && OpenActive(was, ids)
    requires ids != [] && ids[|ids| - 1] == was[k].token.scopeId && Ascending(ids, limit)
    ensures OpenActive(txs, ids[..|ids| - 1])
  {
    var n := |ids| - 1;
    forall id | id in ids[..n] ensures exists j :: 0 <= j < |txs| && txs[j].active && txs[j].token.scopeId == id {
      assert id in ids && id != ids[n];
      var j :| 0 <= j < |was| && was[j].active && was[j].token.scopeId == id;
      assert txs[j] == was[j];
    }
  }

  lemma OwnedAfterPush<D>(w: World<D>, t: State<D>, tx: Tx)
    requires Owned(w) && tx.active && tx.token.scopeId == w.conn.scopeSequence + 1 == t.scopeSequence
    requires t.scopeIds == w.conn.scopeIds + [tx.token.scopeId]
    ensures Owned(World(t, w.txs + [tx]))
  {
    var ids, txs := w.conn.scopeIds, w.txs + [tx];
    forall k | 0 <= k < |txs| && txs[k].active ensures txs[k].token.scopeId in t.scopeIds {
      if k < |w.txs| {
        assert w.txs[k].token.scopeId in ids;
      }
    }
    forall id | id in t.scopeIds
      ensures exists k :: 0 <= k < |txs| && txs[k].active && txs[k].token.scopeId == id
    {
      if id in ids {
        var k :| 0 <= k < |w.txs| && w.txs[k].active && w.txs[k].token.scopeId == id;
        assert txs[k] == w.txs[k];
      } else {
        assert txs[|w.txs|].token.scopeId == id;
      }
    }
  }

  lemma OwnedAfterOpen<D>(env: Env, w: World<D>, now: int, timeout: Option<int>, ok: bool)
    requires Shaped(w.conn) && Owned(w)
    ensures Owned(Act1(env, w, Open(now, timeout, ok)))
  {
    var (t, reply) := OpenTx(env, w.conn, now, timeout, ok);
    if reply.Done? {
      OwnedAfterPush(w, t, reply.value);
    } else {
      assert t.scopeIds == w.conn.scopeIds && t.scopeSequence == w.conn.scopeSequence;
    }
  }

  lemma ActOwned<D>(env: Env, w: World<D>, act: Act<D>)
    requires Shaped(w.conn) && Owned(w)
    ensures Owned(Act1(env, w, act))
  {
    match act
    case Open(now, timeout, ok) => OwnedAfterOpen(env, w, now, timeout, ok);
    case CommitAt(k, now, ok) => EndedOwned(env, w, act, k, now, ok);
    case RollbackAt(k, ok) => EndedOwned(env, w, act, k, 0, ok);
    case Destroy(k, ok) => EndedOwned(env, w, act, k, 0, ok);
    case Work(callback) =>
    case Write(contents, ok) =>
  }

  lemma EndedOwned<D>(env: Env, w: World<D>, act: Act<D>, k: nat, now: int, ok: bool)
    requires Shaped(w.conn) && Owned(w)
    requires act == CommitAt(k, now, ok) || act == RollbackAt(k, ok) || act == Destroy(k, ok)
    ensures Owned(Act1(env, w, act))
  {
    var v := Act1(env, w, act);
    if k < |w.txs| && w.txs[k].active {
      EndThrough(env, w, k, now, ok);
      if v.txs[k].active {
        assert v.txs == w.txs;
      } else {
        OwnedAfterEnd(w, k, v.conn);
        assert v.txs == w.txs[k := w.txs[k].(active := false)];
      }
    } else {
      assert v.txs == w.txs;
    }
  }

  /** In every history of transaction objects, finished or destroyed in any order, a scope is
      open exactly while one object is active on it. */
  lemma {:induction false} ObjectsOwnScopes<D>(env: Env, w: World<D>, acts: seq<Act<D>>)
    requires Shaped(w.conn) && Owned(w)
    ensures Owned(Acts(env, w, acts))
    decreases |acts|
  {
    if acts != [] {
      ActOwned(env, w, acts[0]);
      ObjectsOwnScopes(env, Act1(env, w, acts[0]), acts[1..]);
    }
  }

  /** Nested transactions through objects: contents, callbacks and open scopes follow the ideal
      in every history, and only the scopes of active objects are open. */
  lemma ObjectHistory<D>(env: Env, contents: D, acts: seq<Act<D>>)
    ensures var w := World(Initial(contents), []);
            var after, ops := Acts(env, w, acts), OpsOf(env, w, acts);
            && Owned(after)
            && Refines(env, after.conn, IdealRun(InitialIdeal(contents), Effects(env, w.conn, ops)))
            && after.conn.invoked == WithFate(Ran, Effects(env, w.conn, ops), 0)
  {
    var w := World(Initial(contents), []);
    ObjectsOwnScopes(env, w, acts);
    ObjectsAreHonest(env, w, {}, acts);
    FreshRunRefines(env, contents, OpsOf(env, w, acts));
    CallbacksRun(env, contents, OpsOf(env, w, acts));
  }

  /** A destructor, like an explicit rollback, ends its scope exactly when that scope is the
      innermost one; out of order it changes nothing, and the scope stays open. */
  lemma DestroyEnds<D>(env: Env, contents: D, acts: seq<Act<D>>, k: nat)
    requires k < |Acts(env, World(Initial(contents), []), acts).txs|
    requires Acts(env, World(Initial(contents), []), acts).txs[k].active
    ensures var w := Acts(env, World(Initial(contents), []), acts);
            var v, id := Act1(env, w, Destroy(k, true)), w.txs[k].token.scopeId;
            if w.conn.scopeIds != [] && w.conn.scopeIds[|w.conn.scopeIds| - 1] == id
            then !v.txs[k].active && id !in v.conn.scopeIds
            else v == w && id in v.conn.scopeIds
  {
    hide Acts, Refines, IdealRun, Effects, OpsOf, Owned, RollbackScope, Act1, WithFate;
    var w := Acts(env, World(Initial(contents), []), acts);
    ObjectHistory(env, contents, acts);
    if w.conn.scopeIds != [] && w.conn.scopeIds[|w.conn.scopeIds| - 1] == w.txs[k].token.scopeId {
      InnermostRollsBack(env, contents, acts, k);
    }
    DestroyIn(env, w, k);
  }

  lemma DestroyIn<D>(env: Env, w: World<D>, k: nat)
    requires Shaped(w.conn) && Owned(w) && k < |w.txs| && w.txs[k].active
    requires w.conn.scopeIds != [] && w.conn.scopeIds[|w.conn.scopeIds| - 1] == w.txs[k].token.scopeId ==>
               RollbackScope(env, w.conn, w.txs[k].token, true).1.Done?
    ensures var v, id := Act1(env, w, Destroy(k, true)), w.txs[k].token.scopeId;
            if w.conn.scopeIds != [] && w.conn.scopeIds[|w.conn.scopeIds| - 1] == id
            then !v.txs[k].active && id !in v.conn.scopeIds
            else v == w && id in v.conn.scopeIds
  {
    EndThrough(env, w, k, 0, true);
    LastIsGone(w.conn.scopeIds, w.conn.scopeSequence);
    assert w.txs[k].token.scopeId in w.conn.scopeIds;
    hide RollbackScope, Owned, CommitTx;
    assert w.txs[k := w.txs[k]] == w.txs;
  }

  lemma LastIsGone(ids: seq<nat>, limit: nat)
    requires Ascending(ids, limit)
    ensures ids != [] ==> ids[|ids| - 1] !in ids[..|ids| - 1]
  {
  }

  lemma InnermostRollsBack<D>(env: Env, contents: D, acts: seq<Act<D>>, k: nat)
    requires k < |Acts(env, World(Initial(contents), []), acts).txs|
    requires Acts(env, World(Initial(contents), []), acts).txs[k].active
    requires var w := Acts(env, World(Initial(contents), []), acts);
             w.conn.scopeIds != [] && w.conn.scopeIds[|w.conn.scopeIds| - 1] == w.txs[k].token.scopeId
    ensures var w := Acts(env, World(Initial(contents), []), acts);
            RollbackScope(env, w.conn, w.txs[k].token, true).1.Done?
  {
    var w0 := World(Initial(contents), []);
    assert w0.conn == Initial(contents) && Holds(w0.txs, {});
    hide Acts, Refines, Recognised, IdealRun, Effects, IssuedBy, OpsOf, Run, RollbackScope, Initial, Honest, Shaped;
    var w, ops := Acts(env, w0, acts), OpsOf(env, w0, acts);
    ObjectsAreHonest(env, w0, {}, acts);
    FreshRunRefines(env, contents, ops);
    var i, issued := IdealRun(InitialIdeal(contents), Effects(env, w0.conn, ops)), IssuedBy(env, w0.conn, {}, ops);
    assert w.txs[k].token in issued;
    hide Holds, InitialIdeal;
    InnermostEnds(env, w.conn, i, issued, w.txs[k].token);
  }

  /** A handed-out token that names the innermost scope always ends it when the driver works. */
  lemma InnermostEnds<D>(env: Env, s: State<D>, i: Ideal<D>, issued: set<Token>, token: Token)
    requires Shaped(s) && Refines(env, s, i) && Recognised(issued, s, i) && token in issued
    requires s.scopeIds != [] && s.scopeIds[|s.scopeIds| - 1] == token.scopeId
    ensures RollbackScope(env, s, token, true).1.Done?
  {
    var n := |i.frames|;
    assert i.frames[n - 1].token.scopeId == token.scopeId;
    assert SameToken(token, i.frames[n - 1].token);
    assert TokenFits(i.frames[n - 1].token, n - 1, s.scopeSequence);
    if n >= 2 {
      NestedEndRefines(env, s, i, token);
    }
  }

  /** Two nested transactions destroyed outermost first: the outer destructor fails silently, and
      with no object left alive the connection is still inside the outer transaction. */
  lemma OutOfOrderDestructionLeaks(contents: nat)
    ensures var env := Env(Sqlite, true, {});
            var w := Acts(env, World(Initial(contents), []),
                          [Open(0, None, true), Open(0, None, true), Destroy(0, true), Destroy(1, true)]);
            w.conn.depth == 1 && w.txs[0].active
  {
    var env := Env(Sqlite, true, {});
    var w0 := World(Initial(contents), []);
    var w1 := Act1(env, w0, Open(0, None, true));
    var w2 := Act1(env, w1, Open(0, None, true));
    var w3 := Act1(env, w2, Destroy(0, true));
    assert w3 == w2;
    var w4 := Act1(env, w3, Destroy(1, true));
    assert w4.conn.depth == 1;
    assert Acts(env, w4, []) == w4;
    assert Acts(env, w3, [Destroy(1, true)]) == w4;
    assert Acts(env, w2, [Destroy(0, true), Destroy(1, true)]) == w4;
    assert Acts(env, w1, [Open(0, None, true), Destroy(0, true), Destroy(1, true)]) == w4;
  }

  // ----- an expired transaction never commits -----

  /** The scope ids that some commit ended. */
  function CommittedIds<D>(env: Env, w: World<D>, acts: seq<Act<D>>): set<nat>
    requires Shaped(w.conn)
    decreases |acts|
  {
    if acts == [] then {}
    else
      var v := Act1(env, w, acts[0]);
      (if acts[0].CommitAt? && v.conn.depth < w.conn.depth then {w.conn.scopeIds[w.conn.depth - 1]} else {})
      + CommittedIds(env, v, acts[1..])
  }

  lemma CommitIsNotExpired<D>(env: Env, w: World<D>, act: Act<D>)
    requires Shaped(w.conn) && act.CommitAt? && Act1(env, w, act).conn.depth < w.conn.depth
    ensures act.tx < |w.txs| && !IsExpired(w.txs[act.tx], act.now)
    ensures w.conn.scopeIds[w.conn.depth - 1] == w.txs[act.tx].token.scopeId
  {
  }

  lemma ActKeepsTokens<D>(env: Env, w: World<D>, act: Act<D>, k: nat)
    requires Shaped(w.conn) && k < |w.txs|
    ensures var v := Act1(env, w, act);
            k < |v.txs| && v.txs[k].token == w.txs[k].token && v.txs[k].expiry == w.txs[k].expiry
  {
  }

  /** If every attempt to commit transaction k comes at its deadline or later, no commit ever ends its
      scope, whatever else happens on the connection. */
  lemma {:induction false} ExpiredNeverCommits<D>(env: Env, w: World<D>, acts: seq<Act<D>>, k: nat)
    requires Shaped(w.conn) && Owned(w) && k < |w.txs|
    requires w.txs[k].expiry.Some?
    requires forall a :: 0 <= a < |acts| && acts[a].CommitAt? && acts[a].tx == k ==> acts[a].now >= w.txs[k].expiry.value
    ensures w.txs[k].token.scopeId !in CommittedIds(env, w, acts)
    decreases |acts|
  {
    if acts != [] {
      var v := Act1(env, w, acts[0]);
      ActOwned(env, w, acts[0]);
      ActKeepsTokens(env, w, acts[0], k);
      forall a | 0 <= a < |acts[1..]| && acts[1..][a].CommitAt? && acts[1..][a].tx == k
        ensures acts[1..][a].now >= v.txs[k].expiry.value
      {
        assert acts[a + 1] == acts[1..][a];
      }
      ExpiredNeverCommits(env, v, acts[1..], k);
      if acts[0].CommitAt? && v.conn.depth < w.conn.depth {
        CommitIsNotExpired(env, w, acts[0]);
      }
    }
  }
}
