/** Exactly when each operation on a connection succeeds, what it then does to the savepoints, and what it
    reports otherwise.  The conditions are read off the ideal nested transaction and the request alone, so
    that together with the refinement the ideal predicts every effect of every run. */
module ScopeOutcomes {
  import opened Text
  import opened Driver
  import opened Scopes
  import opened ScopeRefinement

  // ----- what should happen -----

  ghost predicate MayBegin<D>(env: Env, i: Ideal<D>) {
    i.frames == [] || (env.savepoints && env.backend in {Sqlite, Postgresql, Mysql, Mssql})
  }

  ghost predicate IsInnermost<D>(i: Ideal<D>, token: Token) {
    i.frames != [] && token == i.frames[|i.frames| - 1].token
  }

  /** Committing a nested scope asks nothing of SQL Server. */
  ghost predicate CommitAsks<D>(env: Env, i: Ideal<D>) {
    |i.frames| == 1 || env.backend != Mssql
  }

  /** The k-th of these callbacks is the first that throws. */
  ghost predicate FirstToThrow(callbacks: seq<Callback>, throwing: set<Callback>, k: nat) {
    && k < |callbacks| && callbacks[k] in throwing
    && forall j :: 0 <= j < k ==> callbacks[j] !in throwing
  }

  /** All went well, or this is the first callback that did not. */
  ghost predicate Reports(reply: Reply<()>, callbacks: seq<Callback>, throwing: set<Callback>) {
    match reply
    case Done(_) => forall j :: 0 <= j < |callbacks| ==> callbacks[j] !in throwing
    case Throws(fault) => exists k: nat :: FirstToThrow(callbacks, throwing, k) && fault == CallbackFailed(callbacks[k])
  }

  lemma {:induction false} RunReports(callbacks: seq<Callback>, throwing: set<Callback>)
    ensures Reports(RunReply(callbacks, throwing), callbacks, throwing)
  {
    if callbacks != [] {
      if callbacks[0] in throwing {
        assert FirstToThrow(callbacks, throwing, 0);
      } else {
        var rest := callbacks[1..];
        RunReports(rest, throwing);
        if RunReply(rest, throwing).Throws? {
          var k: nat :| FirstToThrow(rest, throwing, k) && RunReply(rest, throwing).fault == CallbackFailed(rest[k]);
          assert callbacks[k + 1] == rest[k];
          assert forall j :: 1 <= j < |callbacks| ==> callbacks[j] == rest[j - 1];
          assert FirstToThrow(callbacks, throwing, k + 1);
        } else {
          assert forall j :: 1 <= j < |callbacks| ==> callbacks[j] == rest[j - 1];
        }
      }
    }
  }

  // ----- beginning -----

  /** A BEGIN SUCCEEDS exactly with a working driver, at the root or on a backend with SQL savepoints; the new
      token is one deeper, has the next id and a name no savepoint of the session has.  A refused one leaves
      the connection alone but for a savepoint number used up. */
  lemma BeginSucceeds<D>(env: Env, s: State<D>, i: Ideal<D>, ok: bool)
    requires Shaped(s) && Refines(env, s, i)
    ensures var (t, reply) := BeginScope(env, s, ok);
            && (reply.Done? <==> ok && (s.depth == 0 || (env.savepoints && env.backend in {Sqlite, Postgresql, Mysql, Mssql})))
            && (reply.Done? ==>
                  && t.depth == s.depth + 1 && t.scopeIds == s.scopeIds + [s.scopeSequence + 1] && t.callbacks == s.callbacks + [[]]
                  && reply.value == Token(s.depth == 0, reply.value.savepoint, s.depth + 1, s.scopeSequence + 1)
                  && (s.depth == 0 <==> reply.value.savepoint == "")
                  && (forall p :: 0 <= p < |s.session.savepoints| ==> s.session.savepoints[p].name != reply.value.savepoint)
                  && t.session.savepoints == if s.depth == 0 then []
                       else s.session.savepoints + [Savepoint(reply.value.savepoint, s.session.contents)])
            && (reply.Throws? ==>
                  && t == s.(savepointSequence := t.savepointSequence)
                  && reply.fault == if s.depth > 0 && !env.savepoints then NestingUnsupported
                                    else if s.depth > 0 && env.backend == Mongodb then MongoNesting else DriverFailed)
  {
    FreshName(s.session.savepoints, s.savepointSequence);
    SaveFresh(env.backend, s.session, s.savepointSequence);
    assert SavepointName(s.savepointSequence + 1)[0] == 'g';
    if s.depth == 0 {
      assert forall p :: 0 <= p < |s.session.savepoints| ==> Numbered(s.session.savepoints[p].name, s.savepointSequence);
    }
    hide NamesOnce, Placed, SameView, Tokens, Save, SavepointName;
  }

  // ----- ending -----

  /** A token from begin_scope passes validation exactly when it is the innermost scope's. */
  lemma Validated<D>(env: Env, s: State<D>, i: Ideal<D>, issued: set<Token>, token: Token)
    requires Shaped(s) && Refines(env, s, i) && Recognised(issued, s, i) && token in issued
    ensures Validate(s, token) == if i.frames == [] then Some(NotActive) else if IsInnermost(i, token) then None else Some(OutOfOrder)
  {
    var n := |i.frames|;
    if n > 0 {
      assert TokenFits(i.frames[n - 1].token, n - 1, s.scopeSequence);
      if token.scopeId == i.frames[n - 1].token.scopeId {
        assert SameToken(token, i.frames[n - 1].token);
      }
    }
  }

  /** A COMMIT SUCCEEDS exactly for the innermost scope's token, with a working driver where the driver is asked.
      At the root every waiting callback runs and the first that throws is reported; elsewhere PostgreSQL, MySQL
      and SQLite forget the scope's savepoint and all later ones, and SQL Server keeps them. */
  lemma CommitSucceeds<D>(env: Env, s: State<D>, i: Ideal<D>, issued: set<Token>, token: Token, ok: bool)
    requires Shaped(s) && Refines(env, s, i) && Recognised(issued, s, i) && token in issued
    ensures var (t, reply) := CommitScope(env, s, token, ok);
            && (t.depth < s.depth <==> IsInnermost(i, token) && (ok || !CommitAsks(env, i)))
            && (t.depth < s.depth && |i.frames| == 1 ==> Reports(reply, i.frames[0].callbacks, env.throwing))
            && (t.depth < s.depth && |i.frames| >= 2 ==> reply == Done(()) && DropsSavepoint(env, s.session, t.session, token))
            && (t.depth >= s.depth ==> t == s && reply == Throws(Refusal(i, token)))
  {
    Validated(env, s, i, issued, token);
    if IsInnermost(i, token) {
      assert TokenFits(token, |i.frames| - 1, s.scopeSequence);
      if |i.frames| == 1 {
        assert s.callbacks == [i.frames[0].callbacks];
        assert Levels(s.callbacks) == i.frames[0].callbacks + Levels([]) == i.frames[0].callbacks;
        RunReports(i.frames[0].callbacks, env.throwing);
      } else {
        NestedEndRefines(env, s, i, token);
        Dropped(env, s, i, token);
      }
    }
    hide Refines, Recognised, Levels, RunReply, Reports, DropsSavepoint;
  }

  /** What an end of a scope that leaves the connection alone reports. */
  ghost function Refusal<D>(i: Ideal<D>, token: Token): Fault {
    if i.frames == [] then NotActive else if !IsInnermost(i, token) then OutOfOrder else DriverFailed
  }

  /** The savepoint of this name and all later ones are gone where the backend releases savepoints. */
  ghost predicate DropsSavepoint<D>(env: Env, before: Session<D>, after: Session<D>, token: Token) {
    if env.backend in {Postgresql, Mysql, Sqlite} then
      exists p :: 0 <= p < |before.savepoints| && before.savepoints[p].name == token.savepoint
                  && after == before.(savepoints := before.savepoints[..p])
    else after == before
  }

  lemma LastIndexNamed<D>(points: seq<Savepoint<D>>, name: string)
    ensures var p := LastIndex(points, name); p >= 0 ==> points[p].name == name
  {
  }

  lemma Dropped<D>(env: Env, s: State<D>, i: Ideal<D>, token: Token)
    requires Shaped(s) && Refines(env, s, i) && |i.frames| >= 2 && token == i.frames[|i.frames| - 1].token
    requires Validate(s, token).None? && !token.root && CommitScope(env, s, token, true).1.Done?
    ensures DropsSavepoint(env, s.session, CommitScope(env, s, token, true).0.session, token)
  {
    LastIndexNamed(s.session.savepoints, token.savepoint);
  }

  /** A ROLLBACK SUCCEEDS exactly for the innermost scope's token with a working driver; a nested one goes back
      to the scope's own savepoint and keeps it. */
  lemma RollbackSucceeds<D>(env: Env, s: State<D>, i: Ideal<D>, issued: set<Token>, token: Token, ok: bool)
    requires Shaped(s) && Refines(env, s, i) && Recognised(issued, s, i) && token in issued
    ensures var (t, reply) := RollbackScope(env, s, token, ok);
            && (reply.Done? <==> IsInnermost(i, token) && ok)
            && (reply.Done? ==> t.depth < s.depth && t.session.contents == i.frames[|i.frames| - 1].snapshot)
            && (reply.Done? && |i.frames| >= 2 ==> KeepsSavepoint(s.session, t.session, token))
            && (reply.Throws? ==> t == s && reply.fault == Refusal(i, token))
  {
    Validated(env, s, i, issued, token);
    if IsInnermost(i, token) {
      assert TokenFits(token, |i.frames| - 1, s.scopeSequence);
      if |i.frames| >= 2 {
        NestedEndRefines(env, s, i, token);
        WentBack(env, s, i, token);
      }
    }
    hide KeepsSavepoint, Recognised, NamesOnce, Tokens, RollbackTo;
  }

  /** Exactly the savepoints later than the one of this name are gone. */
  ghost predicate KeepsSavepoint<D>(before: Session<D>, after: Session<D>, token: Token) {
    exists p :: 0 <= p < |before.savepoints| && before.savepoints[p].name == token.savepoint
                && after.savepoints == before.savepoints[..p + 1]
  }

  lemma WentBack<D>(env: Env, s: State<D>, i: Ideal<D>, token: Token)
    requires Shaped(s) && Refines(env, s, i) && |i.frames| >= 2 && token == i.frames[|i.frames| - 1].token
    requires Validate(s, token).None? && !token.root && RollbackScope(env, s, token, true).1.Done?
    ensures KeepsSavepoint(s.session, RollbackScope(env, s, token, true).0.session, token)
  {
    LastIndexNamed(s.session.savepoints, token.savepoint);
  }

  // ----- the plain operations -----

  /** begin, commit and rollback work on a root scope alone: with no scope open there is nothing to end, with a
      nested one open they refuse. */
  lemma PlainSucceeds<D>(env: Env, s: State<D>, i: Ideal<D>, ok: bool)
    requires Shaped(s) && Refines(env, s, i)
    ensures var (t, reply) := Begin(env, s, ok);
            && (reply.Done? <==> ok && i.frames == []) && (reply.Done? ==> t.depth == 1)
            && (reply.Throws? ==> t == s && reply.fault == if i.frames != [] then AlreadyBegun else DriverFailed)
    ensures var (t, reply) := Commit(env, s, ok);
            && (t.depth < s.depth <==> ok && |i.frames| == 1)
            && (t.depth < s.depth ==> Reports(reply, i.frames[0].callbacks, env.throwing))
            && (t.depth >= s.depth ==> t == s && reply == PlainRefusal(i))
    ensures var (t, reply) := Rollback(env, s, ok);
            && (t.depth < s.depth <==> ok && |i.frames| == 1)
            && (t.depth < s.depth ==> reply == Done(()) && t.session.contents == i.frames[0].snapshot)
            && (t.depth >= s.depth ==> t == s && reply == PlainRefusal(i))
  {
    if |i.frames| == 1 {
      assert TokenFits(i.frames[0].token, 0, s.scopeSequence);
      assert s.callbacks == [i.frames[0].callbacks];
      assert Levels(s.callbacks) == i.frames[0].callbacks + Levels([]) == i.frames[0].callbacks;
      RunReports(i.frames[0].callbacks, env.throwing);
    }
    hide Levels, RunReply, Reports;
  }

  ghost function PlainRefusal<D>(i: Ideal<D>): Reply<()> {
    if i.frames == [] then Done(()) else if |i.frames| > 1 then Throws(NestedActive) else Throws(DriverFailed)
  }

  /** A callback is refused when empty, held inside a transaction, and run at once outside one. */
  lemma CallbackReported<D>(env: Env, s: State<D>, c: Callback)
    requires Shaped(s)
    ensures AfterCommit(env, s, None) == (s, Throws(EmptyCallback))
    ensures s.depth > 0 ==> AfterCommit(env, s, Some(c)).1 == Done(())
    ensures s.depth == 0 ==> Reports(AfterCommit(env, s, Some(c)).1, [c], env.throwing)
  {
    RunReports([c], env.throwing);
  }

  // ----- every run -----

  /** The effect an operation should have, up to the name of a new savepoint. */
  ghost predicate Foreseen<D>(env: Env, i: Ideal<D>, op: Op<D>, e: Effect<D>) {
    match op
    case OpBeginScope(ok) => if ok && MayBegin(env, i) then BeginsNext(i, e) else e == Nothing
    case OpBegin(ok) => if ok && i.frames == [] then BeginsNext(i, e) else e == Nothing
    case OpCommitScope(token, ok) => e == if IsInnermost(i, token) && (ok || !CommitAsks(env, i)) then Committed else Nothing
    case OpRollbackScope(token, ok) => e == if IsInnermost(i, token) && ok then RolledBack else Nothing
    case OpCommit(ok) => e == if |i.frames| == 1 && ok then Committed else Nothing
    case OpRollback(ok) => e == if |i.frames| == 1 && ok then RolledBack else Nothing
    case OpAfterCommit(c) => e == if c.Some? then Registered(c.value) else Nothing
    case OpExecute(contents, ok) => e == if ok then Wrote(contents) else Nothing
  }

  ghost predicate BeginsNext<D>(i: Ideal<D>, e: Effect<D>) {
    e.Began? && e.token.root == (i.frames == []) && e.token.depth == |i.frames| + 1
  }

  lemma StepForeseen<D>(env: Env, s: State<D>, i: Ideal<D>, issued: set<Token>, op: Op<D>)
    requires Shaped(s) && Refines(env, s, i) && Recognised(issued, s, i)
    requires op.OpCommitScope? || op.OpRollbackScope? ==> op.token in issued
    ensures Foreseen(env, i, op, EffectOf(env, s, op))
  {
    assert s.depth == |i.frames|;
    hide Refines, Recognised, BeginScope, CommitScope, RollbackScope;
    match op
    case OpBeginScope(ok) => BeginEffect(env, s, op); BeginSucceeds(env, s, i, ok);
    case OpBegin(ok) => BeginEffect(env, s, op); BeginSucceeds(env, s, i, ok);
    case OpCommitScope(token, ok) => EndEffect(env, s, op); CommitSucceeds(env, s, i, issued, token, ok);
    case OpRollbackScope(token, ok) => EndEffect(env, s, op); RollbackSucceeds(env, s, i, issued, token, ok);
    case OpCommit(ok) => EndEffect(env, s, op); PlainSucceeds(env, s, i, ok);
    case OpRollback(ok) => EndEffect(env, s, op); PlainSucceeds(env, s, i, ok);
    case OpAfterCommit(c) =>
    case OpExecute(contents, ok) =>
  }

  /** Every token passed in was handed out earlier. */
  ghost predicate OwnTokens<D>(env: Env, s: State<D>, issued: set<Token>, ops: seq<Op<D>>)
    requires Shaped(s)
    decreases |ops|
  {
    ops != [] ==>
      && (ops[0].OpCommitScope? || ops[0].OpRollbackScope? ==> ops[0].token in issued)
      && OwnTokens(env, Step(env, s, ops[0]), issued + HandedOut(env, s, ops[0]), ops[1..])
  }

  ghost predicate AllForeseen<D>(env: Env, i: Ideal<D>, ops: seq<Op<D>>, effects: seq<Effect<D>>)
    decreases |ops|
  {
    && |effects| == |ops|
    && (ops != [] ==> Foreseen(env, i, ops[0], effects[0]) && AllForeseen(env, IdealStep(i, effects[0]), ops[1..], effects[1..]))
  }

  /** THE IDEAL FORESEES EVERY RUN.  Which operations begin, commit, roll back or do nothing follows from the
      ideal transaction and the requests alone: with the refinement, a connection cannot refuse what the ideal
      allows nor allow what it refuses. */
  lemma {:induction false} RunForeseen<D>(env: Env, s: State<D>, i: Ideal<D>, issued: set<Token>, ops: seq<Op<D>>)
    requires Shaped(s) && Refines(env, s, i) && Recognised(issued, s, i) && OwnTokens(env, s, issued, ops)
    ensures AllForeseen(env, i, ops, Effects(env, s, ops))
    decreases |ops|
  {
    if ops != [] {
      StepForeseen(env, s, i, issued, ops[0]);
      if (ops[0].OpCommitScope? || ops[0].OpRollbackScope?) {
        Validated(env, s, i, issued, ops[0].token);
      }
      StepRefines(env, s, i, ops[0]);
      assert forall k :: 0 <= k < |i.frames| ==> TokenFits(i.frames[k].token, k, s.scopeSequence);
      StepRecognised(env, s, i, issued, ops[0]);
      var e, rest := EffectOf(env, s, ops[0]), Effects(env, Step(env, s, ops[0]), ops[1..]);
      assert ([e] + rest)[0] == e && ([e] + rest)[1..] == rest;
      hide Refines, Recognised, EffectOf, Foreseen, IdealStep, Step, HandedOut;
      RunForeseen(env, Step(env, s, ops[0]), IdealStep(i, e), issued + HandedOut(env, s, ops[0]), ops[1..]);
    }
  }

  lemma FreshRunForeseen<D>(env: Env, contents: D, ops: seq<Op<D>>)
    requires OwnTokens(env, Initial(contents), {}, ops)
    ensures AllForeseen(env, InitialIdeal(contents), ops, Effects(env, Initial(contents), ops))
  {
    RunForeseen(env, Initial(contents), InitialIdeal(contents), {}, ops);
  }
}
