/** Exactly when a transaction object opens, commits and rolls back, in every history of any number of objects on one
    connection.  The conditions are the caller's own: the time, the timeout given at the opening, whether the
    object's scope is the innermost open one, and whether the driver works. */
module TransactionOutcomes {
  import opened Text
  import opened Driver
  import opened Scopes
  import opened ScopeRefinement
  import opened ScopeOutcomes
  import opened Transactions

  ghost predicate Innermost<D>(w: World<D>, k: nat)
    requires k < |w.txs|
  {
    w.conn.scopeIds != [] && w.conn.scopeIds[|w.conn.scopeIds| - 1] == w.txs[k].token.scopeId
  }

  /** The object's own scope is gone, the object is inactive, and no other scope or object is touched. */
  ghost predicate Ended<D>(w: World<D>, v: World<D>, k: nat)
    requires k < |w.txs|
  {
    && w.conn.scopeIds == v.conn.scopeIds + [w.txs[k].token.scopeId]
    && v.txs == w.txs[k := w.txs[k].(active := false)]
  }

  ghost predicate Reached<D>(env: Env, w: World<D>, i: Ideal<D>, issued: set<Token>) {
    Shaped(w.conn) && Owned(w) && Refines(env, w.conn, i) && Recognised(issued, w.conn, i) && Holds(w.txs, issued)
  }

  /** Every history of objects on a fresh connection refines an ideal nested transaction. */
  lemma HistoryReaches<D>(env: Env, contents: D, acts: seq<Act<D>>) returns (i: Ideal<D>, issued: set<Token>)
    ensures Reached(env, Acts(env, World(Initial(contents), []), acts), i, issued)
  {
    var w0 := World(Initial(contents), []);
    assert w0.conn == Initial(contents) && Holds(w0.txs, {});
    ObjectsOwnScopes(env, w0, acts);
    hide Acts, Refines, Recognised, IdealRun, Effects, IssuedBy, OpsOf, Run, Initial, Honest, Shaped, Owned;
    var ops := OpsOf(env, w0, acts);
    ObjectsAreHonest(env, w0, {}, acts);
    FreshRunRefines(env, contents, ops);
    i, issued := IdealRun(InitialIdeal(contents), Effects(env, w0.conn, ops)), IssuedBy(env, w0.conn, {}, ops);
  }

  lemma InnermostIsIdeal<D>(env: Env, w: World<D>, i: Ideal<D>, issued: set<Token>, k: nat)
    requires Reached(env, w, i, issued) && k < |w.txs|
    ensures |i.frames| == w.conn.depth == |w.conn.scopeIds|
    ensures IsInnermost(i, w.txs[k].token) <==> Innermost(w, k)
  {
    var n, token := |i.frames|, w.txs[k].token;
    assert token in issued;
    if n > 0 && token.scopeId == i.frames[n - 1].token.scopeId {
      assert SameToken(token, i.frames[n - 1].token);
    }
  }

  lemma CommitReached<D>(env: Env, w: World<D>, i: Ideal<D>, issued: set<Token>, k: nat, now: int, ok: bool)
    requires Reached(env, w, i, issued) && k < |w.txs| && w.txs[k].active
    ensures var v, deadline := Act1(env, w, CommitAt(k, now, ok)), w.txs[k].expiry;
            if (deadline.None? || now < deadline.value) && Innermost(w, k) && (ok || (w.conn.depth > 1 && env.backend == Mssql))
            then Ended(w, v, k) else v == w
  {
    InnermostIsIdeal(env, w, i, issued, k);
    CommitSucceeds(env, w.conn, i, issued, w.txs[k].token, ok);
    assert w.txs[k].token.scopeId in w.conn.scopeIds;
    hide Refines, Recognised, Levels, RunReply, Reports, DropsSavepoint;
    assert w.txs[k := w.txs[k]] == w.txs;
  }

  lemma RollbackReached<D>(env: Env, w: World<D>, i: Ideal<D>, issued: set<Token>, k: nat, ok: bool)
    requires Reached(env, w, i, issued) && k < |w.txs| && w.txs[k].active
    ensures var v := Act1(env, w, RollbackAt(k, ok));
            && Act1(env, w, Destroy(k, ok)) == v
            && if Innermost(w, k) && ok then Ended(w, v, k) else v == w
  {
    InnermostIsIdeal(env, w, i, issued, k);
    RollbackSucceeds(env, w.conn, i, issued, w.txs[k].token, ok);
    hide Refines, Recognised, KeepsSavepoint;
    assert w.txs[k := w.txs[k]] == w.txs;
  }

  /** OPENING.  A transaction opens exactly with a positive timeout or none, a working driver, and at the root or on a
      backend with SQL savepoints; its deadline is the moment of opening plus the timeout. */
  lemma OpensExactly<D>(env: Env, contents: D, acts: seq<Act<D>>, now: int, timeout: Option<int>, ok: bool)
    ensures var w := Acts(env, World(Initial(contents), []), acts);
            var v := Act1(env, w, Open(now, timeout, ok));
            if (timeout.None? || timeout.value > 0) && ok
               && (w.conn.depth == 0 || (env.savepoints && env.backend in {Sqlite, Postgresql, Mysql, Mssql}))
            then
              && |v.txs| == |w.txs| + 1 && v.txs[..|w.txs|] == w.txs && v.txs[|w.txs|].active && Innermost(v, |w.txs|)
              && v.conn.scopeIds[..|v.conn.scopeIds| - 1] == w.conn.scopeIds
              && v.txs[|w.txs|].expiry == if timeout.None? then None else Some(now + timeout.value)
            else v.txs == w.txs && v.conn.scopeIds == w.conn.scopeIds
  {
    var w := Acts(env, World(Initial(contents), []), acts);
    var i, issued := HistoryReaches(env, contents, acts);
    BeginSucceeds(env, w.conn, i, ok);
    hide Acts, Refines, Recognised, Owned, BeginScope;
  }

  /** COMMITTING.  In every history, committing an active transaction ends its scope exactly before its deadline, as the
      innermost one, with a working driver or without asking one; otherwise it changes nothing at all. */
  lemma CommitsExactly<D>(env: Env, contents: D, acts: seq<Act<D>>, k: nat, now: int, ok: bool)
    requires k < |Acts(env, World(Initial(contents), []), acts).txs|
    requires Acts(env, World(Initial(contents), []), acts).txs[k].active
    ensures var w := Acts(env, World(Initial(contents), []), acts);
            var v, deadline := Act1(env, w, CommitAt(k, now, ok)), w.txs[k].expiry;
            if (deadline.None? || now < deadline.value) && Innermost(w, k) && (ok || (w.conn.depth > 1 && env.backend == Mssql))
            then Ended(w, v, k) else v == w
  {
    var w := Acts(env, World(Initial(contents), []), acts);
    var i, issued := HistoryReaches(env, contents, acts);
    hide Acts, Reached, Act1, Innermost, Ended, Initial;
    CommitReached(env, w, i, issued, k, now, ok);
  }

  /** ROLLING BACK.  In every history, rolling back an active transaction, or destroying it, ends its scope exactly as the
      innermost one with a working driver; otherwise it changes nothing at all. */
  lemma RollsBackExactly<D>(env: Env, contents: D, acts: seq<Act<D>>, k: nat, ok: bool)
    requires k < |Acts(env, World(Initial(contents), []), acts).txs|
    requires Acts(env, World(Initial(contents), []), acts).txs[k].active
    ensures var w := Acts(env, World(Initial(contents), []), acts);
            var v := Act1(env, w, RollbackAt(k, ok));
            && Act1(env, w, Destroy(k, ok)) == v
            && if Innermost(w, k) && ok then Ended(w, v, k) else v == w
  {
    var w := Acts(env, World(Initial(contents), []), acts);
    var i, issued := HistoryReaches(env, contents, acts);
    hide Acts, Reached, Act1, Innermost, Ended, Initial;
    RollbackReached(env, w, i, issued, k, ok);
  }
}
