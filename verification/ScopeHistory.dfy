/** What a whole history of nested transactions amounts to: what a rollback restores, which
    commit callbacks run, and how often a scope can end. */
module ScopeHistory {
  import opened Text
  import opened Driver
  import opened Scopes
  import opened ScopeRefinement

  // ----- rollback restores the contents at the scope's own begin -----

  /** How many scopes are open after the effects, counted from `open`; -1 once a scope that was
      already open at the start has ended. */
  function Nesting<D>(effects: seq<Effect<D>>, open: int): int
    requires open >= -1
    decreases |effects|
  {
    if open == -1 || effects == [] then open
    else match effects[0]
      case Began(_) => Nesting(effects[1..], open + 1)
      case Committed => Nesting(effects[1..], open - 1)
      case RolledBack => Nesting(effects[1..], open - 1)
      case _ => Nesting(effects[1..], open)
  }

  /** Every scope begun in between also ended in between, and no outer one did. */
  predicate Balanced<D>(effects: seq<Effect<D>>) {
    Nesting(effects, 0) == 0
  }

  /** Frames that agree except that the innermost of `f` may have collected callbacks in `g`. */
  ghost predicate Untouched<D>(f: seq<Frame<D>>, g: seq<Frame<D>>) {
    && |g| >= |f| >= 1
    && g[..|f| - 1] == f[..|f| - 1]
    && g[|f| - 1].token == f[|f| - 1].token
    && g[|f| - 1].snapshot == f[|f| - 1].snapshot
  }

  /** Whatever happens inside a scope leaves the frames around it, and its own snapshot, alone. */
  lemma {:induction false} InsideUntouched<D>(base: seq<Frame<D>>, i: Ideal<D>, effects: seq<Effect<D>>, open: nat)
    requires Untouched(base, i.frames) && |i.frames| == |base| + open && Nesting(effects, open) >= 0
    ensures Untouched(base, IdealRun(i, effects).frames)
    ensures |IdealRun(i, effects).frames| == |base| + Nesting(effects, open)
    ensures IdealRun(i, effects).invoked == i.invoked
    decreases |effects|
  {
    if effects != [] {
      var j := IdealStep(i, effects[0]);
      var n := |base|;
      assert j.frames[..n - 1] == i.frames[..n - 1];
      InsideUntouched(base, j, effects[1..], |j.frames| - n);
    }
  }

  /** A scope that is rolled back takes everything done inside it along, and nothing else. */
  lemma ScopeRolledBack<D>(i: Ideal<D>, token: Token, inside: seq<Effect<D>>)
    requires Balanced(inside)
    ensures IdealRun(i, [Began(token)] + inside + [RolledBack]) == i
  {
    var begun := IdealStep(i, Began(token));
    RunConcat(i, [Began(token)], inside + [RolledBack]);
    RunConcat(begun, inside, [RolledBack]);
    assert [Began(token)] + inside + [RolledBack] == [Began(token)] + (inside + [RolledBack]);
    InsideUntouched(begun.frames, begun, inside, 0);
    var last := IdealRun(begun, inside);
    assert last.frames[..|i.frames|] == begun.frames[..|i.frames|] == i.frames;
  }

  lemma {:induction false} RunConcat<D>(i: Ideal<D>, a: seq<Effect<D>>, b: seq<Effect<D>>)
    ensures IdealRun(i, a + b) == IdealRun(IdealRun(i, a), b)
    decreases |a|
  {
    if a == [] {
      assert a + b == b;
    } else {
      assert (a + b)[1..] == a[1..] + b;
      RunConcat(IdealStep(i, a[0]), a[1..], b);
    }
  }

  /** A scope that is committed keeps the contents its body left and adds nothing to undo. */
  lemma ScopeCommitted<D>(i: Ideal<D>, token: Token, inside: seq<Effect<D>>)
    requires Balanced(inside)
    ensures var after := IdealRun(i, [Began(token)] + inside + [Committed]);
            && after.contents == IdealRun(IdealStep(i, Began(token)), inside).contents
            && |after.frames| == |i.frames|
            && forall k :: 0 <= k < |i.frames| ==>
                 after.frames[k].token == i.frames[k].token && after.frames[k].snapshot == i.frames[k].snapshot
  {
    var begun := IdealStep(i, Began(token));
    RunConcat(i, [Began(token)], inside + [Committed]);
    RunConcat(begun, inside, [Committed]);
    assert [Began(token)] + inside + [Committed] == [Began(token)] + (inside + [Committed]);
    InsideUntouched(begun.frames, begun, inside, 0);
    var last := IdealRun(begun, inside);
    assert last.frames[..|i.frames|] == begun.frames[..|i.frames|] == i.frames;
  }

  // ----- which callbacks run -----

  datatype Fate = Ran | Dropped | Waiting

  /** The fate of one callback, followed on its own.  `level` scopes around it, its own one
      included, must still commit; `above` are the deeper scopes open at the moment. */
  function FateOf<D>(level: nat, above: nat, future: seq<Effect<D>>): Fate
    decreases |future|
  {
    if level == 0 then Ran
    else if future == [] then Waiting
    else match future[0]
      case Began(_) => FateOf(level, above + 1, future[1..])
      case Committed => if above > 0 then FateOf(level, above - 1, future[1..]) else FateOf(level - 1, 0, future[1..])
      case RolledBack => if above > 0 then FateOf(level, above - 1, future[1..]) else Dropped
      case _ => FateOf(level, above, future[1..])
  }

  /** The callbacks registered in the history whose fate is `fate`, in registration order. */
  function WithFate<D>(fate: Fate, effects: seq<Effect<D>>, depth: nat): seq<Callback>
    decreases |effects|
  {
    if effects == [] then []
    else
      var rest := effects[1..];
      match effects[0]
      case Began(_) => WithFate(fate, rest, depth + 1)
      case Committed => WithFate(fate, rest, if depth == 0 then 0 else depth - 1)
      case RolledBack => WithFate(fate, rest, if depth == 0 then 0 else depth - 1)
      case Registered(c) => (if FateOf(depth, 0, rest) == fate then [c] else []) + WithFate(fate, rest, depth)
      case _ => WithFate(fate, rest, depth)
  }

  /** The callbacks already collected by the open scopes whose fate is `fate`. */
  function Collected<D>(fate: Fate, frames: seq<Frame<D>>, above: nat, future: seq<Effect<D>>): seq<Callback>
    decreases |frames|
  {
    if frames == [] then []
    else
      var n := |frames|;
      Collected(fate, frames[..n - 1], above + 1, future)
      + if FateOf(n, above, future) == fate then frames[n - 1].callbacks else []
  }

  /** With nothing left to happen, every collected callback is still waiting. */
  function AllCallbacks<D>(frames: seq<Frame<D>>): seq<Callback> {
    if frames == [] then [] else AllCallbacks(frames[..|frames| - 1]) + frames[|frames| - 1].callbacks
  }

  lemma {:induction false} CollectedAtEnd<D>(frames: seq<Frame<D>>, above: nat)
    ensures Collected(Ran, frames, above, []) == []
    ensures Collected(Waiting, frames, above, []) == AllCallbacks(frames)
  {
    if frames != [] {
      CollectedAtEnd(frames[..|frames| - 1], above + 1);
    }
  }

  /** Outer scopes see one more or one fewer scope above them; nothing else changes for them. */
  lemma {:induction false} CollectedOuter<D>(fate: Fate, frames: seq<Frame<D>>, above: nat, future: seq<Effect<D>>)
    requires future != []
    ensures future[0].Began? ==> Collected(fate, frames, above, future) == Collected(fate, frames, above + 1, future[1..])
    ensures (future[0].Committed? || future[0].RolledBack?) && above > 0 ==>
              Collected(fate, frames, above, future) == Collected(fate, frames, above - 1, future[1..])
    ensures !future[0].Began? && !future[0].Committed? && !future[0].RolledBack? ==>
              Collected(fate, frames, above, future) == Collected(fate, frames, above, future[1..])
    decreases |frames|
  {
    if frames != [] {
      CollectedOuter(fate, frames[..|frames| - 1], above + 1, future);
    }
  }

  /** Everything that has or will have fate `fate`: run already, collected, or still to register. */
  function Total<D>(fate: Fate, i: Ideal<D>, future: seq<Effect<D>>): seq<Callback> {
    (if fate == Ran then i.invoked else [])
    + (Collected(fate, i.frames, 0, future) + WithFate(fate, future, |i.frames|))
  }

  lemma CommitFates<D>(i: Ideal<D>, future: seq<Effect<D>>, fate: Fate)
    requires future != [] && fate != Dropped && future[0].Committed?
    ensures Total(fate, i, future) == Total(fate, IdealStep(i, Committed), future[1..])
  {
    var j, rest, n := IdealStep(i, Committed), future[1..], |i.frames|;
    if n == 0 {
    } else if n == 1 {
      assert i.frames[..0] == [];
      assert FateOf(1, 0, future) == Ran;
      assert Collected(fate, i.frames[..0], 1, future) == [];
      assert Collected(fate, i.frames, 0, future) == if fate == Ran then i.frames[0].callbacks else [];
    } else {
      MergedFates(i, future, fate);
    }
  }

  /** One scope's callbacks on top of those around it. */
  lemma CollectedTop<D>(fate: Fate, front: seq<Frame<D>>, top: Frame<D>, above: nat, future: seq<Effect<D>>, level: nat, up: nat)
    requires level == |front| + 1 && up == above + 1
    ensures Collected(fate, front + [top], above, future)
         == Collected(fate, front, up, future) + if FateOf(level, above, future) == fate then top.callbacks else []
  {
    var frames := front + [top];
    assert frames[..|frames| - 1] == front && frames[|frames| - 1] == top;
    hide FateOf;
  }

  /** Merging a committed scope's callbacks into the scope around collects the same ones. */
  lemma MergedFates<D>(i: Ideal<D>, future: seq<Effect<D>>, fate: Fate)
    requires future != [] && fate != Dropped && future[0].Committed? && |i.frames| >= 2
    ensures Collected(fate, i.frames, 0, future) == Collected(fate, IdealStep(i, Committed).frames, 0, future[1..])
  {
    var j, rest, n := IdealStep(i, Committed), future[1..], |i.frames|;
    var m := n - 1;
    var outer, inner, parent, top := i.frames[..n - 2], i.frames[..m], i.frames[n - 2], i.frames[m];
    var merged := parent.(callbacks := parent.callbacks + top.callbacks);
    assert inner == outer + [parent] && i.frames == inner + [top] && j.frames == outer + [merged];
    assert FateOf(n, 0, future) == FateOf(m, 0, rest);
    hide Collected, FateOf, IdealStep;
    CollectedTop(fate, inner, top, 0, future, n, 1);
    CollectedOuter(fate, inner, 1, future);
    CollectedTop(fate, outer, parent, 0, rest, m, 1);
    CollectedTop(fate, outer, merged, 0, rest, m, 1);
  }

  lemma RegisterFates<D>(i: Ideal<D>, future: seq<Effect<D>>, fate: Fate)
    requires future != [] && fate != Dropped && future[0].Registered?
    ensures Total(fate, i, future) == Total(fate, IdealStep(i, future[0]), future[1..])
  {
    var j, rest, n := IdealStep(i, future[0]), future[1..], |i.frames|;
    CollectedOuter(fate, i.frames, 0, future);
    if n >= 1 {
      assert j.frames[..n - 1] == i.frames[..n - 1];
    }
  }

  /** One step runs, drops or keeps callbacks exactly as their fates say. */
  lemma StepFates<D>(i: Ideal<D>, future: seq<Effect<D>>, fate: Fate)
    requires future != [] && fate != Dropped
    ensures Total(fate, i, future) == Total(fate, IdealStep(i, future[0]), future[1..])
  {
    var n := |i.frames|;
    match future[0]
    case Began(token) =>
      CollectedOuter(fate, i.frames, 0, future);
      assert IdealStep(i, future[0]).frames[..n] == i.frames;
    case Committed => CommitFates(i, future, fate);
    case RolledBack =>
      if n >= 1 {
        CollectedOuter(fate, i.frames[..n - 1], 1, future);
      }
    case Registered(c) => RegisterFates(i, future, fate);
    case _ => CollectedOuter(fate, i.frames, 0, future);
  }

  lemma {:induction false} RunFates<D>(i: Ideal<D>, effects: seq<Effect<D>>)
    ensures IdealRun(i, effects).invoked == Total(Ran, i, effects)
    ensures AllCallbacks(IdealRun(i, effects).frames) == Total(Waiting, i, effects)
    decreases |effects|
  {
    if effects == [] {
      CollectedAtEnd(i.frames, 0);
    } else {
      StepFates(i, effects, Ran);
      StepFates(i, effects, Waiting);
      RunFates(IdealStep(i, effects[0]), effects[1..]);
    }
  }

  lemma {:induction false} LevelsAreCallbacks<D>(levels: seq<seq<Callback>>, frames: seq<Frame<D>>)
    requires |levels| == |frames| && forall k :: 0 <= k < |levels| ==> levels[k] == frames[k].callbacks
    ensures Levels(levels) == AllCallbacks(frames)
  {
    if levels != [] {
      var n := |levels|;
      LevelsAreCallbacks(levels[..n - 1], frames[..n - 1]);
      LevelsSplit(levels[..n - 1], levels[n - 1]);
      assert levels == levels[..n - 1] + [levels[n - 1]];
    }
  }

  lemma {:induction false} LevelsSplit(levels: seq<seq<Callback>>, last: seq<Callback>)
    ensures Levels(levels + [last]) == Levels(levels) + last
  {
    if levels != [] {
      assert (levels + [last])[1..] == levels[1..] + [last];
      LevelsSplit(levels[1..], last);
    }
  }

  /** COMMIT CALLBACKS.  Over every history of a connection, the callbacks that have run are exactly
      those whose own scope and all enclosing scopes committed, each once, in registration
      order; those still held are exactly the undecided ones; the rest were dropped by a rollback. */
  lemma CallbacksRun<D>(env: Env, contents: D, ops: seq<Op<D>>)
    requires Honest(env, Initial(contents), {}, ops)
    ensures var s := Run(env, Initial(contents), ops);
            var effects := Effects(env, Initial(contents), ops);
            && s.invoked == WithFate(Ran, effects, 0)
            && Levels(s.callbacks) == WithFate(Waiting, effects, 0)
  {
    var effects := Effects(env, Initial(contents), ops);
    FreshRunRefines(env, contents, ops);
    RunFates(InitialIdeal(contents), effects);
    LevelsAreCallbacks(Run(env, Initial(contents), ops).callbacks, IdealRun(InitialIdeal(contents), effects).frames);
  }

  // ----- the same on the connection itself -----

  lemma {:induction false} RunSplit<D>(env: Env, s: State<D>, issued: set<Token>, a: seq<Op<D>>, b: seq<Op<D>>)
    requires Shaped(s)
    ensures Run(env, s, a + b) == Run(env, Run(env, s, a), b)
    ensures Effects(env, s, a + b) == Effects(env, s, a) + Effects(env, Run(env, s, a), b)
    ensures Honest(env, s, issued, a + b) ==> Honest(env, s, issued, a)
    decreases |a|
  {
    if a == [] {
      assert a + b == b;
    } else {
      assert (a + b)[1..] == a[1..] + b;
      RunSplit(env, Step(env, s, a[0]), issued + HandedOut(env, s, a[0]), a[1..], b);
    }
  }

  /** SAVEPOINT REFINEMENT, as a user sees it.  At any point of any run, when a scope is begun, any
      balanced work happens inside it and the scope is rolled back, then the database contents
      are exactly those at the scope's own begin, the same scopes are open and the same
      callbacks have run or wait as if the scope had never been begun. */
  lemma RollbackRestores<D>(env: Env, contents: D, before: seq<Op<D>>, begin: Op<D>, inside: seq<Op<D>>, end: Op<D>)
    requires var start := Run(env, Initial(contents), before);
             var body := Step(env, start, begin);
             && Honest(env, Initial(contents), {}, before + ([begin] + (inside + [end])))
             && EffectOf(env, start, begin).Began?
             && Balanced(Effects(env, body, inside))
             && EffectOf(env, Run(env, body, inside), end) == RolledBack
    ensures var start := Run(env, Initial(contents), before);
            var after := Run(env, Initial(contents), before + ([begin] + (inside + [end])));
            && after.session.contents == start.session.contents
            && after.scopeIds == start.scopeIds
            && after.callbacks == start.callbacks
            && after.invoked == start.invoked
  {
    var s0, i0 := Initial(contents), InitialIdeal(contents);
    var start, tail := Run(env, s0, before), [begin] + (inside + [end]);
    var body := Step(env, start, begin);
    RunSplit(env, s0, {}, before, tail);
    ScopeEffects(env, start, begin, inside, end);
    hide Run, Effects, IdealRun, Honest, Step, EffectOf, IssuedBy, Balanced, Refines;
    FreshRunRefines(env, contents, before);
    FreshRunRefines(env, contents, before + tail);
    var token, effects := EffectOf(env, start, begin).token, Effects(env, body, inside);
    var first, scope := Effects(env, s0, before), [Began(token)] + effects + [RolledBack];
    RunConcat(i0, first, scope);
    ScopeRolledBack(IdealRun(i0, first), token, effects);
    RefinedViews(env, start, IdealRun(i0, first));
    RefinedViews(env, Run(env, s0, before + tail), IdealRun(i0, first));
    SameViews(start, Run(env, s0, before + tail), IdealRun(i0, first));
  }

  lemma RefinedViews<D>(env: Env, s: State<D>, i: Ideal<D>)
    requires Refines(env, s, i)
    ensures SameView(s, i)
  {
  }

  /** The effects of a scope with its begin and its rollback. */
  lemma ScopeEffects<D>(env: Env, start: State<D>, begin: Op<D>, inside: seq<Op<D>>, end: Op<D>)
    requires Shaped(start) && EffectOf(env, start, begin).Began?
    requires EffectOf(env, Run(env, Step(env, start, begin), inside), end) == RolledBack
    ensures var effects := Effects(env, Step(env, start, begin), inside);
            Effects(env, start, [begin] + (inside + [end])) == [Began(EffectOf(env, start, begin).token)] + effects + [RolledBack]
  {
    hide Step, EffectOf;
    var body, more := Step(env, start, begin), inside + [end];
    var all := [begin] + more;
    assert all[0] == begin && all[1..] == more;
    RunSplit(env, body, {}, inside, [end]);
    var last := Run(env, body, inside);
    assert [end][1..] == [];
    assert Effects(env, last, [end]) == [RolledBack];
  }

  lemma SameViews<D>(s: State<D>, t: State<D>, i: Ideal<D>)
    requires SameView(s, i) && SameView(t, i)
    ensures s.session.contents == t.session.contents && s.invoked == t.invoked
    ensures s.scopeIds == t.scopeIds && s.callbacks == t.callbacks
  {
  }

  // ----- a scope ends at most once -----

  /** The id of the scope the operation ended, if it ended one. */
  function Ended<D>(env: Env, s: State<D>, op: Op<D>): seq<nat>
    requires Shaped(s)
  {
    if Step(env, s, op).depth < s.depth then [s.scopeIds[s.depth - 1]] else []
  }

  function EndedBy<D>(env: Env, s: State<D>, ops: seq<Op<D>>): seq<nat>
    requires Shaped(s)
    decreases |ops|
  {
    if ops == [] then [] else Ended(env, s, ops[0]) + EndedBy(env, Step(env, s, ops[0]), ops[1..])
  }

  ghost predicate Ascending(ids: seq<nat>, limit: nat) {
    && (forall k :: 0 <= k < |ids| ==> 1 <= ids[k] <= limit)
    && (forall j, k :: 0 <= j < k < |ids| ==> ids[j] < ids[k])
  }

  ghost predicate NoRepeats(ids: seq<nat>) {
    forall j, k :: 0 <= j < k < |ids| ==> ids[j] != ids[k]
  }

  /** SCOPE TOKENS.  Whatever token is presented, forged ones included: an attempt that is not the
      innermost scope's own id changes nothing, and one that ends a scope ends that one. */
  lemma TokenEndsOnlyItsScope<D>(env: Env, s: State<D>, token: Token, ok: bool)
    requires Shaped(s)
    ensures forall op: Op<D> :: op == OpCommitScope(token, ok) || op == OpRollbackScope(token, ok) ==>
              var t := Step(env, s, op);
              if s.depth == 0 || token.scopeId != s.scopeIds[s.depth - 1] || token.depth != s.depth then t == s
              else t == s || (Ended(env, s, op) == [token.scopeId] && t.scopeIds == s.scopeIds[..s.depth - 1])
  {
  }

  /** A step leaves the open ids alone, opens the next one, or ends innermost ones. */
  lemma StepIdCases<D>(env: Env, s: State<D>, op: Op<D>)
    requires Shaped(s)
    ensures var t := Step(env, s, op);
            || (t.scopeIds == s.scopeIds && t.scopeSequence == s.scopeSequence && t.depth == s.depth)
            || (t.scopeIds == s.scopeIds + [s.scopeSequence + 1] && t.scopeSequence == s.scopeSequence + 1 && t.depth > s.depth)
            || (s.depth > 0 && t.scopeIds == s.scopeIds[..s.depth - 1] && t.scopeSequence == s.scopeSequence && t.depth < s.depth)
  {
    hide Levels, RunReply, Release, RollbackTo, Save, SavepointName;
  }

  lemma StepIds<D>(env: Env, s: State<D>, op: Op<D>)
    requires Shaped(s) && Ascending(s.scopeIds, s.scopeSequence)
    ensures var t := Step(env, s, op);
            && Ascending(t.scopeIds, t.scopeSequence) && t.scopeSequence >= s.scopeSequence
            && (forall id :: id in t.scopeIds ==> id in s.scopeIds || id > s.scopeSequence)
            && (forall id :: id in Ended(env, s, op) ==> id in s.scopeIds && id !in t.scopeIds)
  {
    StepIdCases(env, s, op);
    hide Step;
  }

  /** Over every run, with any tokens in any order, no scope ends twice. */
  lemma {:induction false} EndedOnce<D>(env: Env, s: State<D>, ops: seq<Op<D>>)
    requires Shaped(s) && Ascending(s.scopeIds, s.scopeSequence)
    ensures NoRepeats(EndedBy(env, s, ops))
    ensures forall id :: id in EndedBy(env, s, ops) ==> id in s.scopeIds || id > s.scopeSequence
    decreases |ops|
  {
    if ops != [] {
      var t := Step(env, s, ops[0]);
      StepIds(env, s, ops[0]);
      EndedOnce(env, t, ops[1..]);
      var first, rest := Ended(env, s, ops[0]), EndedBy(env, t, ops[1..]);
      forall id | id in first ensures id !in rest {
        assert id in s.scopeIds && id !in t.scopeIds;
      }
      assert |first| <= 1 && EndedBy(env, s, ops) == first + rest;
      assert forall k :: 0 <= k < |rest| ==> rest[k] in rest;
      forall id | id in rest ensures id in s.scopeIds || id > s.scopeSequence {
        assert id in t.scopeIds || id > t.scopeSequence;
      }
    }
  }
}
