/** What the savepoint name in a token is for.  Validation compares id, depth and root flag, not the
    name: these lemmas say exactly when a token that passes acts as the scope's own would. */
module ScopeTokens {
  import opened Text
  import opened Driver
  import opened Scopes
  import opened ScopeRefinement

  /** Another name is another place in the stack, or none. */
  lemma {:induction false} LastIndexNamed<D>(points: seq<Savepoint<D>>, name: string)
    ensures LastIndex(points, name) >= 0 ==> points[LastIndex(points, name)].name == name
  {
    if points != [] && points[|points| - 1].name != name {
      LastIndexNamed(points[..|points| - 1], name);
    }
  }

  /** Among distinct savepoints, going back to a name and releasing it do what they do for the p-th one
      if and only if it is that one's name. */
  lemma NameDecides<D>(s: Session<D>, p: nat, name: string)
    requires DistinctNames(s.savepoints) && p < |s.savepoints|
    ensures RollbackTo(s, name) == RollbackTo(s, s.savepoints[p].name) <==> name == s.savepoints[p].name
    ensures Release(s, name) == Release(s, s.savepoints[p].name) <==> name == s.savepoints[p].name
  {
    LastIndexUnique(s.savepoints, p);
    LastIndexNamed(s.savepoints, name);
    var q := LastIndex(s.savepoints, name);
    hide LastIndex, DistinctNames;
    if name != s.savepoints[p].name && q >= 0 {
      assert |s.savepoints[..q]| != |s.savepoints[..p]|;
      assert |s.savepoints[..q + 1]| != |s.savepoints[..p + 1]|;
    }
  }

  /** The innermost nested scope's own savepoint is in the session. */
  lemma OwnSavepoint<D>(env: Env, s: State<D>, i: Ideal<D>) returns (p: nat)
    requires Shaped(s) && Refines(env, s, i) && |i.frames| >= 2
    ensures p < |s.session.savepoints|
    ensures s.session.savepoints[p].name == i.frames[|i.frames| - 1].token.savepoint
    ensures DistinctNames(s.session.savepoints)
  {
    var n := |i.frames|;
    var marks := Marks(i.frames);
    assert marks[|marks| - 1] == Savepoint(i.frames[n - 1].token.savepoint, i.frames[n - 1].snapshot);
    EmbeddedTop(s.session.savepoints, marks);
    p := LastIndex(s.session.savepoints, marks[|marks| - 1].name);
  }

  /** TOKEN NAMES.  A token that passes validation for a nested scope rolls back as the scope's own token
      does if and only if it carries the name issued with that scope; so does a commit on the
      backends that release savepoints, and on the others the name never matters. */
  lemma NameOfValidToken<D>(env: Env, s: State<D>, i: Ideal<D>, token: Token)
    requires Shaped(s) && Refines(env, s, i) && |i.frames| >= 2 && Validate(s, token).None?
    ensures var own := i.frames[|i.frames| - 1].token;
            && (RollbackScope(env, s, token, true) == RollbackScope(env, s, own, true)
                <==> token.savepoint == own.savepoint)
            && (Releases(env.backend) ==>
                  (CommitScope(env, s, token, true) == CommitScope(env, s, own, true)
                   <==> token.savepoint == own.savepoint))
            && (!Releases(env.backend) ==> CommitScope(env, s, token, true) == CommitScope(env, s, own, true))
  {
    var n := |i.frames|;
    var own := i.frames[n - 1].token;
    var p := OwnSavepoint(env, s, i);
    NameDecides(s.session, p, token.savepoint);
    assert TokenFits(own, n - 1, s.scopeSequence) && s.scopeIds[n - 1] == own.scopeId;
    assert Validate(s, own).None? && !token.root && !own.root;
    OwnSucceeds(s.session, p);
    hide RollbackTo, Release, DistinctNames, NamesOnce, Placed;
    SessionsApart(s, RollbackTo(s.session, token.savepoint), RollbackTo(s.session, own.savepoint));
    SessionsApart(s, Release(s.session, token.savepoint), Release(s.session, own.savepoint));
  }

  lemma OwnSucceeds<D>(s: Session<D>, p: nat)
    requires DistinctNames(s.savepoints) && p < |s.savepoints|
    ensures RollbackTo(s, s.savepoints[p].name).Some? && Release(s, s.savepoints[p].name).Some?
  {
    LastIndexUnique(s.savepoints, p);
  }

  /** What ending the scope leaves behind differs as the driver's answers do. */
  lemma SessionsApart<D>(s: State<D>, a: Option<Session<D>>, b: Option<Session<D>>)
    requires Shaped(s) && s.depth >= 2 && b.Some?
    ensures Discarded(s, b.value) != s && Merged(s, b.value) != s
    ensures a.Some? ==> (Discarded(s, a.value) == Discarded(s, b.value) <==> a == b)
    ensures a.Some? ==> (Merged(s, a.value) == Merged(s, b.value) <==> a == b)
  {
    assert Discarded(s, b.value).session == b.value && Merged(s, b.value).session == b.value;
    assert Discarded(s, b.value).depth != s.depth && Merged(s, b.value).depth != s.depth;
    assert a.Some? ==> Discarded(s, a.value).session == a.value && Merged(s, a.value).session == a.value;
  }

  /** The input: three scopes deep, a token with the innermost scope's id and depth and the name of the
      scope around it. */
  function Forged(): Token {
    Token(false, SavepointName(1), 3, 3)
  }

  function ForgedRun(): seq<Op<nat>> {
    [OpBeginScope(true), OpBeginScope(true), OpExecute(1, true), OpBeginScope(true), OpExecute(2, true),
     OpRollbackScope(Forged(), true)]
  }

  /** The state of that run before the last operation. */
  function ThreeDeep(): State<nat> {
    State(Session(2, Some(0), [Savepoint(SavepointName(1), 0), Savepoint(SavepointName(2), 1)]),
          3, [[], [], []], [1, 2, 3], 3, 2, [])
  }

  lemma ReachesThreeDeep(env: Env)
    requires env == Env(Sqlite, true, {})
    ensures Run(env, Initial(0), ForgedRun()[..5]) == ThreeDeep()
  {
    var ops := ForgedRun()[..5];
    var s1 := State(Session(0, Some(0), []), 1, [[]], [1], 1, 0, []);
    var s2 := State(Session(0, Some(0), [Savepoint(SavepointName(1), 0)]), 2, [[], []], [1, 2], 2, 1, []);
    var s3 := s2.(session := s2.session.(contents := 1));
    var points := [Savepoint(SavepointName(1), 0), Savepoint(SavepointName(2), 1)];
    var s4 := State(Session(1, Some(0), points), 3, [[], [], []], [1, 2, 3], 3, 2, []);
    hide SavepointName, Run;
    assert Step(env, Initial(0), ops[0]) == s1 && Step(env, s1, ops[1]) == s2 && Step(env, s2, ops[2]) == s3;
    assert Step(env, s3, ops[3]) == s4 && Step(env, s4, ops[4]) == ThreeDeep();
    hide Step;
    RunFive(env, Initial(0), ops);
  }

  lemma RunFive(env: Env, s: State<nat>, ops: seq<Op<nat>>)
    requires Shaped(s) && |ops| == 5
    ensures Run(env, s, ops) ==
            Step(env, Step(env, Step(env, Step(env, Step(env, s, ops[0]), ops[1]), ops[2]), ops[3]), ops[4])
  {
    hide Step;
    var t1 := Step(env, s, ops[0]);
    var t2 := Step(env, t1, ops[1]);
    var t3 := Step(env, t2, ops[2]);
    var t4 := Step(env, t3, ops[3]);
    assert Run(env, s, ops) == Run(env, t1, ops[1..]);
    assert Run(env, t1, ops[1..]) == Run(env, t2, ops[2..]) by { assert ops[1..][1..] == ops[2..]; }
    assert Run(env, t2, ops[2..]) == Run(env, t3, ops[3..]) by { assert ops[2..][1..] == ops[3..]; }
    assert Run(env, t3, ops[3..]) == Run(env, t4, ops[4..]) by { assert ops[3..][1..] == ops[4..]; }
    var last := ops[4..];
    assert last[0] == ops[4] && last[1..] == [];
    assert Run(env, t4, last) == Run(env, Step(env, t4, ops[4]), []);
  }

  lemma TwoNames()
    ensures SavepointName(1) != SavepointName(2)
  {
    assert SavepointName(1)[11..] == Numeral(1, 10) && SavepointName(2)[11..] == Numeral(2, 10);
    if Numeral(1, 10) == Numeral(2, 10) {
      NumeralInjective(1, 2, 10);
    }
  }

  /** FORGED NAME.  The token passes validation, and rolling back with it restores the contents of the
      scope around; the innermost scope's own token restores its own. */
  lemma ForgedNameRestoresOuter(env: Env)
    requires env == Env(Sqlite, true, {})
    ensures var s := Run(env, Initial(0), ForgedRun()[..5]);
            var own := Token(false, SavepointName(2), 3, 3);
            && Validate(s, Forged()).None? && Validate(s, own).None?
            && Step(env, s, OpRollbackScope(Forged(), true)).session.contents == 0
            && Step(env, s, OpRollbackScope(own, true)).session.contents == 1
  {
    ReachesThreeDeep(env);
    var s := ThreeDeep();
    var points := s.session.savepoints;
    TwoNames();
    assert SavepointName(1) != "" && SavepointName(2) != "";
    hide SavepointName, Run;
    assert DistinctNames(points);
    LastIndexUnique(points, 0);
    LastIndexUnique(points, 1);
  }

  /** So the refinement needs the names: up to that operation the run is honest and refines the ideal
      nested transactions, and after it no longer does. */
  lemma ForgedNameBreaksRefinement(env: Env)
    requires env == Env(Sqlite, true, {})
    ensures var s := Run(env, Initial(0), ForgedRun()[..5]);
            var i := IdealRun(InitialIdeal(0), Effects(env, Initial(0), ForgedRun()[..5]));
            var op := OpRollbackScope(Forged(), true);
            Refines(env, s, i) && !Refines(env, Step(env, s, op), IdealStep(i, EffectOf(env, s, op)))
  {
    var ops := ForgedRun()[..5];
    HonestWithoutTokens(env, Initial(0), {}, ops);
    ReachesThreeDeep(env);
    ForgedNameRestoresOuter(env);
    hide Run, IdealRun, Effects, Honest, Recognised, Refines, ThreeDeep, ForgedRun, Forged, Step, EffectOf, Validate;
    FreshRunRefines(env, 0, ops);
    ForgedDiffers(env, IdealRun(InitialIdeal(0), Effects(env, Initial(0), ops)));
  }

  lemma ForgedDiffers(env: Env, i: Ideal<nat>)
    requires Refines(env, ThreeDeep(), i)
    requires Validate(ThreeDeep(), Forged()).None?
    requires Step(env, ThreeDeep(), OpRollbackScope(Forged(), true)).session.contents == 0
    ensures var op := OpRollbackScope(Forged(), true);
            !Refines(env, Step(env, ThreeDeep(), op), IdealStep(i, EffectOf(env, ThreeDeep(), op)))
  {
    var s, op := ThreeDeep(), OpRollbackScope(Forged(), true);
    var t := Step(env, s, op);
    MarksFill(s.session.savepoints, i.frames);
    assert t.depth < s.depth;
    assert EffectOf(env, s, op) == RolledBack;
    hide Step, EffectOf, SavepointName, NamesOnce, Placed, Tokens;
    assert !SameView(t, IdealStep(i, RolledBack));
  }

  lemma {:induction false} HonestWithoutTokens(env: Env, s: State<nat>, issued: set<Token>, ops: seq<Op<nat>>)
    requires Shaped(s) && forall k :: 0 <= k < |ops| ==> !ops[k].OpCommitScope? && !ops[k].OpRollbackScope?
    ensures Honest(env, s, issued, ops)
    decreases |ops|
  {
    hide Step, HandedOut;
    if ops != [] {
      HonestWithoutTokens(env, Step(env, s, ops[0]), issued + HandedOut(env, s, ops[0]), ops[1..]);
    }
  }

  /** As many savepoints as nested scopes: the top one is the innermost scope's. */
  lemma MarksFill<D>(points: seq<Savepoint<D>>, frames: seq<Frame<D>>)
    requires |frames| == 3 && |points| == 2 && Embedded(points, Marks(frames))
    ensures points[1].snapshot == frames[2].snapshot
  {
    var marks := Marks(frames);
    var below := points[..1];
    assert below[..0] == [];
    assert !Embedded(below[..0], marks[..1]) && !Embedded(below[..0], marks);
    assert !Embedded(below, marks);
  }
}
