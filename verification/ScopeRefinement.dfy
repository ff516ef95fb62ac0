/** Nested transactions as a user understands them, and the proof that the connection,
    working through named savepoints, behaves exactly like that on every backend. */
module ScopeRefinement {
  import opened Text
  import opened Driver
  import opened Scopes

  // ----- the ideal: a stack of scopes, each remembering the contents it started from -----

  datatype Frame<D> = Frame(token: Token, snapshot: D, callbacks: seq<Callback>)

  datatype Ideal<D> = Ideal(contents: D, frames: seq<Frame<D>>, invoked: seq<Callback>)

  /** What an operation achieved, seen from outside. */
  datatype Effect<D> =
    | Began(token: Token)
    | Committed
    | RolledBack
    | Registered(callback: Callback)
    | Wrote(contents: D)
    | Nothing

  function IdealStep<D>(i: Ideal<D>, e: Effect<D>): Ideal<D> {
    var n := |i.frames|;
    match e
    case Began(token) => i.(frames := i.frames + [Frame(token, i.contents, [])])
    case Committed =>
      if n == 0 then i
      else if n == 1 then i.(frames := [], invoked := i.invoked + i.frames[0].callbacks)
      else
        var parent := i.frames[n - 2];
        i.(frames := i.frames[..n - 2] + [parent.(callbacks := parent.callbacks + i.frames[n - 1].callbacks)])
    case RolledBack =>
      if n == 0 then i else i.(contents := i.frames[n - 1].snapshot, frames := i.frames[..n - 1])
    case Registered(c) =>
      if n == 0 then i.(invoked := i.invoked + [c])
      else
        var top := i.frames[n - 1];
        i.(frames := i.frames[..n - 1] + [top.(callbacks := top.callbacks + [c])])
    case Wrote(contents) => i.(contents := contents)
    case Nothing => i
  }

  function IdealRun<D>(i: Ideal<D>, effects: seq<Effect<D>>): Ideal<D>
    decreases |effects|
  {
    if effects == [] then i else IdealRun(IdealStep(i, effects[0]), effects[1..])
  }

  function InitialIdeal<D>(contents: D): Ideal<D> {
    Ideal(contents, [], [])
  }

  /** The effect of one operation: a deeper connection began a scope, a shallower one ended it. */
  function EffectOf<D>(env: Env, s: State<D>, op: Op<D>): Effect<D>
    requires Shaped(s)
  {
    var t := Step(env, s, op);
    if t.depth > s.depth && BeginScope(env, s, true).1.Done? then Began(BeginScope(env, s, true).1.value)
    else if t.depth < s.depth then
      if op.OpCommitScope? || op.OpCommit? then Committed else RolledBack
    else match op
      case OpAfterCommit(Some(c)) => Registered(c)
      case OpExecute(contents, true) => Wrote(contents)
      case _ => Nothing
  }

  function Effects<D>(env: Env, s: State<D>, ops: seq<Op<D>>): seq<Effect<D>>
    requires Shaped(s)
    decreases |ops|
  {
    if ops == [] then []
    else [EffectOf(env, s, ops[0])] + Effects(env, Step(env, s, ops[0]), ops[1..])
  }

  // ----- tokens come from begin_scope -----

  /** The token this operation hands to its caller, if any. */
  function HandedOut<D>(env: Env, s: State<D>, op: Op<D>): set<Token>
    requires Shaped(s)
  {
    if op.OpBeginScope? && BeginScope(env, s, op.ok).1.Done?
    then {BeginScope(env, s, op.ok).1.value} else {}
  }

  /** All tokens handed out by the end of a run. */
  function IssuedBy<D>(env: Env, s: State<D>, issued: set<Token>, ops: seq<Op<D>>): set<Token>
    requires Shaped(s)
    decreases |ops|
  {
    if ops == [] then issued
    else IssuedBy(env, Step(env, s, ops[0]), issued + HandedOut(env, s, ops[0]), ops[1..])
  }

  /** Every token passed in was handed out earlier, or names no innermost scope at all. */
  ghost predicate Honest<D>(env: Env, s: State<D>, issued: set<Token>, ops: seq<Op<D>>)
    requires Shaped(s)
    decreases |ops|
  {
    ops != [] ==>
      && (ops[0].OpCommitScope? || ops[0].OpRollbackScope? ==>
            ops[0].token in issued || Validate(s, ops[0].token).Some?)
      && Honest(env, Step(env, s, ops[0]), issued + HandedOut(env, s, ops[0]), ops[1..])
  }

  // ----- the refinement relation -----

  ghost predicate SameView<D>(s: State<D>, i: Ideal<D>) {
    && s.session.contents == i.contents
    && s.invoked == i.invoked
    && s.depth == |i.frames| == |s.scopeIds| == |s.callbacks|
    && forall k :: 0 <= k < |i.frames| ==>
         s.scopeIds[k] == i.frames[k].token.scopeId && s.callbacks[k] == i.frames[k].callbacks
  }

  /** Every savepoint the session still knows carries a number handed out before, no two the same. */
  ghost predicate NamesOnce<D>(points: seq<Savepoint<D>>, limit: nat) {
    && (forall p :: 0 <= p < |points| ==> Numbered(points[p].name, limit))
    && DistinctNames(points)
  }

  ghost predicate Numbered(name: string, limit: nat) {
    exists n :: 1 <= n <= limit && name == SavepointName(n)
  }

  /** The savepoints that ought to be there: one for each nested scope. */
  ghost function Marks<D>(frames: seq<Frame<D>>): (m: seq<Savepoint<D>>)
    ensures |m| == if frames == [] then 0 else |frames| - 1
  {
    if |frames| <= 1 then []
    else
      var top := frames[|frames| - 1];
      Marks(frames[..|frames| - 1]) + [Savepoint(top.token.savepoint, top.snapshot)]
  }

  /** The marks occur in the session's stack in nesting order, leftovers anywhere in between. */
  ghost predicate Embedded<D>(points: seq<Savepoint<D>>, marks: seq<Savepoint<D>>)
    decreases |points|
  {
    || marks == []
    || (points != [] &&
        var below := points[..|points| - 1];
        || (points[|points| - 1] == marks[|marks| - 1] && Embedded(below, marks[..|marks| - 1]))
        || Embedded(below, marks))
  }

  ghost predicate Placed<D>(session: Session<D>, frames: seq<Frame<D>>) {
    && session.root == (if frames == [] then None else Some(frames[0].snapshot))
    && Embedded(session.savepoints, Marks(frames))
  }

  ghost predicate Tokens<D>(s: State<D>, frames: seq<Frame<D>>) {
    forall k :: 0 <= k < |frames| ==> TokenFits(frames[k].token, k, s.scopeSequence)
  }

  ghost predicate TokenFits(t: Token, k: nat, limit: nat) {
    && t.root == (k == 0) && t.depth == k + 1
    && (k > 0 ==> t.savepoint != "")
    && 1 <= t.scopeId <= limit
  }

  ghost predicate Refines<D>(env: Env, s: State<D>, i: Ideal<D>) {
    && SameView(s, i)
    && NamesOnce(s.session.savepoints, s.savepointSequence)
    && Placed(s.session, i.frames)
    && Tokens(s, i.frames)
    && (env.backend.Mongodb? ==> |i.frames| <= 1)
  }

  /** A token handed out earlier is the open scope's own token or belongs to no open scope. */
  ghost predicate Recognised<D>(issued: set<Token>, s: State<D>, i: Ideal<D>) {
    forall t :: t in issued ==>
      && t.scopeId <= s.scopeSequence
      && forall k :: 0 <= k < |i.frames| && t.scopeId == i.frames[k].token.scopeId ==> SameToken(t, i.frames[k].token)
  }

  ghost predicate SameToken(t: Token, u: Token) {
    t == u
  }

  // ----- the steps -----

  lemma FreshName<D>(points: seq<Savepoint<D>>, limit: nat)
    requires NamesOnce(points, limit)
    ensures forall p :: 0 <= p < |points| ==> points[p].name != SavepointName(limit + 1)
  {
    forall p | 0 <= p < |points| ensures points[p].name != SavepointName(limit + 1) {
      assert Numbered(points[p].name, limit);
      var n :| 1 <= n <= limit && points[p].name == SavepointName(n);
      if SavepointName(n) == SavepointName(limit + 1) {
        assert SavepointName(n)[11..] == Numeral(n, 10);
        assert SavepointName(limit + 1)[11..] == Numeral(limit + 1, 10);
        NumeralInjective(n, limit + 1, 10);
      }
    }
  }

  lemma NamesOnceAppend<D>(points: seq<Savepoint<D>>, limit: nat, added: Savepoint<D>)
    requires NamesOnce(points, limit) && added.name == SavepointName(limit + 1)
    ensures NamesOnce(points + [added], limit + 1)
  {
    FreshName(points, limit);
    forall p | 0 <= p < |points| ensures Numbered(points[p].name, limit + 1) {
      assert Numbered(points[p].name, limit);
    }
    assert Numbered(added.name, limit + 1);
  }

  lemma {:induction false} EmbeddedDrop<D>(points: seq<Savepoint<D>>, marks: seq<Savepoint<D>>)
    requires Embedded(points, marks) && marks != []
    ensures Embedded(points, marks[..|marks| - 1])
  {
    var below := points[..|points| - 1];
    if !(points[|points| - 1] == marks[|marks| - 1] && Embedded(below, marks[..|marks| - 1])) {
      EmbeddedDrop(below, marks);
    }
  }

  /** No leftover shadows the innermost mark: looking its name up finds the mark itself,
      and cutting the stack there, above it or not at all keeps every outer mark. */
  lemma {:induction false} EmbeddedTop<D>(points: seq<Savepoint<D>>, marks: seq<Savepoint<D>>)
    requires Embedded(points, marks) && marks != [] && DistinctNames(points)
    ensures var p := LastIndex(points, marks[|marks| - 1].name);
            && p >= 0 && points[p] == marks[|marks| - 1]
            && Embedded(points[..p], marks[..|marks| - 1])
            && Embedded(points[..p + 1], marks[..|marks| - 1])
            && Embedded(points, marks[..|marks| - 1])
  {
    EmbeddedDrop(points, marks);
    var n, top := |points| - 1, marks[|marks| - 1];
    var below := points[..n];
    if points[n] == top && Embedded(below, marks[..|marks| - 1]) {
      LastIndexUnique(points, n);
      assert points[..n + 1] == points;
    } else {
      EmbeddedTop(below, marks);
      var p := LastIndex(below, top.name);
      LastIndexUnique(points, p);
      assert below[..p] == points[..p] && below[..p + 1] == points[..p + 1];
    }
  }

  lemma MarksPush<D>(frames: seq<Frame<D>>, frame: Frame<D>)
    requires frames != []
    ensures Marks(frames + [frame]) == Marks(frames) + [Savepoint(frame.token.savepoint, frame.snapshot)]
  {
    assert (frames + [frame])[..|frames|] == frames;
  }

  lemma EmbeddedPush<D>(points: seq<Savepoint<D>>, marks: seq<Savepoint<D>>, added: Savepoint<D>)
    requires Embedded(points, marks)
    ensures Embedded(points + [added], marks + [added])
  {
    assert (points + [added])[..|points|] == points && (marks + [added])[..|marks|] == marks;
  }

  /** On every backend, saving under a fresh name puts one savepoint on top of the others. */
  lemma SaveFresh<D>(backend: Backend, session: Session<D>, limit: nat)
    requires NamesOnce(session.savepoints, limit)
    ensures Save(backend, session, SavepointName(limit + 1)) ==
            session.(savepoints := session.savepoints + [Savepoint(SavepointName(limit + 1), session.contents)])
  {
    FreshName(session.savepoints, limit);
    WithoutAbsent(session.savepoints, SavepointName(limit + 1));
  }

  lemma NestedBeginSession<D>(backend: Backend, session: Session<D>, frames: seq<Frame<D>>, limit: nat, frame: Frame<D>)
    requires frames != [] && Placed(session, frames) && NamesOnce(session.savepoints, limit)
    requires frame.snapshot == session.contents && frame.token.savepoint == SavepointName(limit + 1)
    ensures var after := Save(backend, session, SavepointName(limit + 1));
            Placed(after, frames + [frame]) && NamesOnce(after.savepoints, limit + 1)
  {
    var added := Savepoint(SavepointName(limit + 1), session.contents);
    SaveFresh(backend, session, limit);
    NamesOnceAppend(session.savepoints, limit, added);
    EmbeddedPush(session.savepoints, Marks(frames), added);
    MarksPush(frames, frame);
  }

  lemma BeginView<D>(env: Env, s: State<D>, i: Ideal<D>)
    requires Shaped(s) && SameView(s, i) && Tokens(s, i.frames) && BeginScope(env, s, true).1.Done?
    ensures var (t, reply) := BeginScope(env, s, true);
            var j := IdealStep(i, Began(reply.value));
            SameView(t, j) && Tokens(t, j.frames)
  {
    var (t, reply) := BeginScope(env, s, true);
    var frames := IdealStep(i, Began(reply.value)).frames;
    forall k | 0 <= k < |frames| ensures TokenFits(frames[k].token, k, t.scopeSequence) {
      if k < |i.frames| {
        assert TokenFits(i.frames[k].token, k, s.scopeSequence);
      }
    }
  }

  lemma NestedBeginRefines<D>(env: Env, s: State<D>, i: Ideal<D>)
    requires Shaped(s) && Refines(env, s, i) && s.depth > 0 && BeginScope(env, s, true).1.Done?
    ensures var (t, reply) := BeginScope(env, s, true);
            Refines(env, t, IdealStep(i, Began(reply.value)))
  {
    BeginView(env, s, i);
    var frame := Frame(BeginScope(env, s, true).1.value, i.contents, []);
    NestedBeginSession(env.backend, s.session, i.frames, s.savepointSequence, frame);
    hide Placed, NamesOnce, SameView, Tokens, Save, SavepointName;
  }

  /** Marks ignore the callbacks, so merging them into the scope around changes none. */
  lemma MarksPop<D>(frames: seq<Frame<D>>, top: Frame<D>)
    requires |frames| >= 2
    requires top.token == frames[|frames| - 2].token && top.snapshot == frames[|frames| - 2].snapshot
    ensures Marks(frames)[..|frames| - 2] == Marks(frames[..|frames| - 1]) == Marks(frames[..|frames| - 2] + [top])
  {
    var m := frames[..|frames| - 2] + [top];
    assert frames[..|frames| - 1][..|frames| - 2] == frames[..|frames| - 2] == m[..|frames| - 2];
  }

  /** Looking up the innermost scope's savepoint finds the contents that scope started from, and
      dropping that savepoint, only the later ones, or none leaves the outer scopes placed. */
  lemma NestedEndSession<D>(session: Session<D>, frames: seq<Frame<D>>, limit: nat, top: Frame<D>)
    requires |frames| >= 2 && Placed(session, frames) && NamesOnce(session.savepoints, limit)
    requires top.token == frames[|frames| - 2].token && top.snapshot == frames[|frames| - 2].snapshot
    ensures var name, outer := frames[|frames| - 1].token.savepoint, frames[..|frames| - 2] + [top];
            var released, back := Release(session, name), RollbackTo(session, name);
            && released.Some? && back.Some? && back.value.contents == frames[|frames| - 1].snapshot
            && released.value.contents == session.contents
            && forall after :: after == released.value || after == back.value || after == session ==>
                 Placed(after, outer) && NamesOnce(after.savepoints, limit)
  {
    EmbeddedTop(session.savepoints, Marks(frames));
    MarksPop(frames, top);
    var points := session.savepoints;
    var p := LastIndex(points, frames[|frames| - 1].token.savepoint);
    hide Embedded, Marks, LastIndex;
    NamesOncePrefix(points, p, limit);
    NamesOncePrefix(points, p + 1, limit);
    hide NamesOnce;
  }

  lemma NamesOncePrefix<D>(points: seq<Savepoint<D>>, p: nat, limit: nat)
    requires p <= |points| && NamesOnce(points, limit)
    ensures NamesOnce(points[..p], limit)
  {
    hide Numbered;
  }

  lemma EndView<D>(env: Env, s: State<D>, i: Ideal<D>, token: Token, session: Session<D>)
    requires Shaped(s) && SameView(s, i) && Tokens(s, i.frames) && |i.frames| >= 2
    requires token == i.frames[|i.frames| - 1].token
    ensures Validate(s, token).None?
    ensures session.contents == i.contents ==>
              var t, j := Merged(s, session), IdealStep(i, Committed);
              SameView(t, j) && Tokens(t, j.frames)
    ensures session.contents == i.frames[|i.frames| - 1].snapshot ==>
              var t, j := Discarded(s, session), IdealStep(i, RolledBack);
              SameView(t, j) && Tokens(t, j.frames)
  {
    assert TokenFits(token, |i.frames| - 1, s.scopeSequence);
    forall k | 0 <= k < |i.frames| - 1 ensures TokenFits(i.frames[k].token, k, s.scopeSequence) {
    }
  }

  /** Ending the innermost nested scope with its own token: the driver call finds the scope's
      savepoint, and the connection afterwards is the ideal one. */
  lemma NestedEndRefines<D>(env: Env, s: State<D>, i: Ideal<D>, token: Token)
    requires Shaped(s) && Refines(env, s, i) && |i.frames| >= 2
    requires token == i.frames[|i.frames| - 1].token
    ensures CommitScope(env, s, token, true).1.Done?
    ensures Refines(env, CommitScope(env, s, token, true).0, IdealStep(i, Committed))
    ensures RollbackScope(env, s, token, true).1.Done?
    ensures Refines(env, RollbackScope(env, s, token, true).0, IdealStep(i, RolledBack))
  {
    var n, limit := |i.frames|, s.savepointSequence;
    NestedEndSession(s.session, i.frames, limit, IdealStep(i, Committed).frames[n - 2]);
    NestedEndSession(s.session, i.frames, limit, i.frames[n - 2]);
    assert i.frames[..n - 2] + [i.frames[n - 2]] == i.frames[..n - 1];
    EndView(env, s, i, token, s.session);
    EndView(env, s, i, token, Release(s.session, token.savepoint).value);
    EndView(env, s, i, token, RollbackTo(s.session, token.savepoint).value);
    hide Placed, NamesOnce, SameView, Tokens, Release, RollbackTo, Validate;
  }

  lemma RootRefines<D>(env: Env, s: State<D>, i: Ideal<D>)
    requires Shaped(s) && Refines(env, s, i)
    ensures |i.frames| == 0 ==>
              Refines(env, BeginScope(env, s, true).0, IdealStep(i, Began(BeginScope(env, s, true).1.value)))
    ensures |i.frames| == 1 ==>
              && Refines(env, CommitScope(env, s, RootToken(s), true).0, IdealStep(i, Committed))
              && Refines(env, RollbackScope(env, s, RootToken(s), true).0, IdealStep(i, RolledBack))
  {
    if |i.frames| == 1 {
      assert s.callbacks == [i.frames[0].callbacks];
      assert Levels(s.callbacks) == i.frames[0].callbacks + Levels([]);
    }
  }

  lemma Renumbered<D>(env: Env, s: State<D>, i: Ideal<D>)
    requires Refines(env, s, i)
    ensures Refines(env, s.(savepointSequence := s.savepointSequence + 1), i)
  {
    forall p | 0 <= p < |s.session.savepoints|
      ensures Numbered(s.session.savepoints[p].name, s.savepointSequence + 1)
    {
      assert Numbered(s.session.savepoints[p].name, s.savepointSequence);
    }
  }

  lemma BeginRefines<D>(env: Env, s: State<D>, i: Ideal<D>, ok: bool)
    requires Shaped(s) && Refines(env, s, i)
    ensures var (t, reply) := BeginScope(env, s, ok);
            Refines(env, t, if reply.Done? then IdealStep(i, Began(reply.value)) else i)
  {
    var (t, reply) := BeginScope(env, s, ok);
    if reply.Throws? {
      Renumbered(env, s, i);
    } else if s.depth == 0 {
      RootRefines(env, s, i);
    } else {
      NestedBeginRefines(env, s, i);
    }
  }

  /** Ending a scope with its own token either does nothing or ends it in the ideal too. */
  lemma EndRefines<D>(env: Env, s: State<D>, i: Ideal<D>, token: Token, ok: bool)
    requires Shaped(s) && Refines(env, s, i)
    requires Validate(s, token).None? ==> token == i.frames[|i.frames| - 1].token
    ensures var t := CommitScope(env, s, token, ok).0;
            t == s || (t.depth < s.depth && Refines(env, t, IdealStep(i, Committed)))
    ensures var t := RollbackScope(env, s, token, ok).0;
            t == s || (t.depth < s.depth && Refines(env, t, IdealStep(i, RolledBack)))
  {
    if Validate(s, token).None? {
      if |i.frames| == 1 {
        RootRefines(env, s, i);
      } else {
        NestedEndRefines(env, s, i, token);
      }
    }
  }

  lemma MarksTop<D>(frames: seq<Frame<D>>, top: Frame<D>)
    requires frames != []
    requires top.token == frames[|frames| - 1].token && top.snapshot == frames[|frames| - 1].snapshot
    ensures Marks(frames[..|frames| - 1] + [top]) == Marks(frames)
  {
    assert (frames[..|frames| - 1] + [top])[..|frames| - 1] == frames[..|frames| - 1];
  }

  lemma RegisterView<D>(env: Env, s: State<D>, i: Ideal<D>, c: Callback)
    requires Shaped(s) && SameView(s, i) && Tokens(s, i.frames)
    ensures var t, j := AfterCommit(env, s, Some(c)).0, IdealStep(i, Registered(c));
            SameView(t, j) && Tokens(t, j.frames)
  {
    forall k | 0 <= k < |i.frames| ensures TokenFits(i.frames[k].token, k, s.scopeSequence) {
    }
  }

  lemma RegisterRefines<D>(env: Env, s: State<D>, i: Ideal<D>, c: Callback)
    requires Shaped(s) && Refines(env, s, i)
    ensures Refines(env, AfterCommit(env, s, Some(c)).0, IdealStep(i, Registered(c)))
  {
    RegisterView(env, s, i, c);
    if i.frames != [] {
      MarksTop(i.frames, IdealStep(i, Registered(c)).frames[|i.frames| - 1]);
    }
  }

  /** An operation that begins a scope says so by its reply, one that ends a scope by changing
      the connection at all. */
  lemma BeginEffect<D>(env: Env, s: State<D>, op: Op<D>)
    requires Shaped(s) && (op.OpBeginScope? || op.OpBegin?)
    ensures op.OpBegin? && s.depth != 0 ==> Step(env, s, op) == s && EffectOf(env, s, op) == Nothing
    ensures op.OpBeginScope? || s.depth == 0 ==>
              var (t, reply) := BeginScope(env, s, op.ok);
              && Step(env, s, op) == t
              && EffectOf(env, s, op) == if reply.Done? then Began(reply.value) else Nothing
  {
  }

  lemma EndEffect<D>(env: Env, s: State<D>, op: Op<D>)
    requires Shaped(s) && (op.OpCommitScope? || op.OpRollbackScope? || op.OpCommit? || op.OpRollback?)
    ensures Step(env, s, op) == s ==> EffectOf(env, s, op) == Nothing
    ensures Step(env, s, op).depth < s.depth ==>
              EffectOf(env, s, op) == if op.OpCommitScope? || op.OpCommit? then Committed else RolledBack
  {
  }

  lemma StepRefines<D>(env: Env, s: State<D>, i: Ideal<D>, op: Op<D>)
    requires Shaped(s) && Refines(env, s, i)
    requires (op.OpCommitScope? || op.OpRollbackScope?) && Validate(s, op.token).None?
             ==> op.token == i.frames[|i.frames| - 1].token
    ensures Refines(env, Step(env, s, op), IdealStep(i, EffectOf(env, s, op)))
  {
    hide BeginScope, Marks, Embedded, NamesOnce;
    match op
    case OpBeginScope(ok) => BeginEffect(env, s, op); BeginRefines(env, s, i, ok);
    case OpBegin(ok) => BeginEffect(env, s, op); BeginRefines(env, s, i, ok);
    case OpCommitScope(token, ok) => EndEffect(env, s, op); EndRefines(env, s, i, token, ok);
    case OpRollbackScope(token, ok) => EndEffect(env, s, op); EndRefines(env, s, i, token, ok);
    case OpCommit(ok) => EndEffect(env, s, op); if s.depth == 1 { RootRefines(env, s, i); }
    case OpRollback(ok) => EndEffect(env, s, op); if s.depth == 1 { RootRefines(env, s, i); }
    case OpAfterCommit(None) =>
    case OpAfterCommit(Some(c)) => RegisterRefines(env, s, i, c);
    case OpExecute(contents, ok) =>
  }

  /** A step keeps the tokens of the scopes it keeps; a new scope has a new id. */
  lemma IdealTokens<D>(i: Ideal<D>, e: Effect<D>, k: nat)
    requires k < |IdealStep(i, e).frames|
    ensures (k < |i.frames| && IdealStep(i, e).frames[k].token == i.frames[k].token)
            || (k == |i.frames| && e.Began? && IdealStep(i, e).frames[k].token == e.token)
  {
  }

  lemma HandedOutIds<D>(env: Env, s: State<D>, op: Op<D>)
    requires Shaped(s)
    ensures Step(env, s, op).scopeSequence >= s.scopeSequence
    ensures EffectOf(env, s, op).Began? ==>
              && EffectOf(env, s, op).token.scopeId == s.scopeSequence + 1 == Step(env, s, op).scopeSequence
              && HandedOut(env, s, op) <= {EffectOf(env, s, op).token}
    ensures !EffectOf(env, s, op).Began? ==> HandedOut(env, s, op) == {}
  {
  }

  lemma StepRecognised<D>(env: Env, s: State<D>, i: Ideal<D>, issued: set<Token>, op: Op<D>)
    requires Shaped(s) && Recognised(issued, s, i)
    requires forall k :: 0 <= k < |i.frames| ==> i.frames[k].token.scopeId <= s.scopeSequence
    ensures Recognised(issued + HandedOut(env, s, op), Step(env, s, op), IdealStep(i, EffectOf(env, s, op)))
  {
    var e := EffectOf(env, s, op);
    var j := IdealStep(i, e);
    HandedOutIds(env, s, op);
    forall t, k | t in issued + HandedOut(env, s, op) && 0 <= k < |j.frames| && t.scopeId == j.frames[k].token.scopeId
      ensures SameToken(t, j.frames[k].token)
    {
      IdealTokens(i, e, k);
      if t in issued && k < |i.frames| {
        assert SameToken(t, i.frames[k].token);
      }
    }
  }

  /** THE REFINEMENT.  For every run of operations whose scope tokens came from begin_scope, at
      any nesting depth and on every backend, the database contents, the open scopes and the
      callbacks run are those of the ideal nested transactions. */
  lemma {:induction false} RunRefines<D>(env: Env, s: State<D>, i: Ideal<D>, issued: set<Token>, ops: seq<Op<D>>)
    requires Shaped(s) && Refines(env, s, i) && Recognised(issued, s, i) && Honest(env, s, issued, ops)
    ensures Refines(env, Run(env, s, ops), IdealRun(i, Effects(env, s, ops)))
    ensures Recognised(IssuedBy(env, s, issued, ops), Run(env, s, ops), IdealRun(i, Effects(env, s, ops)))
    decreases |ops|
  {
    if ops != [] {
      StepRefines(env, s, i, ops[0]);
      assert forall k :: 0 <= k < |i.frames| ==> TokenFits(i.frames[k].token, k, s.scopeSequence);
      StepRecognised(env, s, i, issued, ops[0]);
      var e, rest := EffectOf(env, s, ops[0]), Effects(env, Step(env, s, ops[0]), ops[1..]);
      assert ([e] + rest)[0] == e && ([e] + rest)[1..] == rest;
      RunRefines(env, Step(env, s, ops[0]), IdealStep(i, e), issued + HandedOut(env, s, ops[0]), ops[1..]);
    }
  }

  lemma FreshRunRefines<D>(env: Env, contents: D, ops: seq<Op<D>>)
    requires Honest(env, Initial(contents), {}, ops)
    ensures Refines(env, Run(env, Initial(contents), ops),
                    IdealRun(InitialIdeal(contents), Effects(env, Initial(contents), ops)))
    ensures Recognised(IssuedBy(env, Initial(contents), {}, ops), Run(env, Initial(contents), ops),
                       IdealRun(InitialIdeal(contents), Effects(env, Initial(contents), ops)))
  {
    RunRefines(env, Initial(contents), InitialIdeal(contents), {}, ops);
  }
}
