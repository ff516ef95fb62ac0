/** `database::Connection` as it runs: fields updated in place, each method proved against the
    function of the same name in `Scopes`. */
module ConnectionObject {
  import opened Text
  import opened Driver
  import opened Scopes

  class Connection<D> {
    const env: Env
    var session: Session<D>
    var depth: nat
    var callbacks: seq<seq<Callback>>
    var scopeIds: seq<nat>
    var scopeSequence: nat
    var savepointSequence: nat
    var invoked: seq<Callback>

    function Now(): State<D>
      reads this
    {
      State(session, depth, callbacks, scopeIds, scopeSequence, savepointSequence, invoked)
    }

    ghost predicate Valid()
      reads this
    {
      Shaped(Now())
    }

    constructor (env: Env, contents: D)
      ensures Valid() && Now() == Initial(contents) && this.env == env
    {
      this.env := env;
      session := Session(contents, None, []);
      depth, callbacks, scopeIds := 0, [], [];
      scopeSequence, savepointSequence, invoked := 0, 0, [];
    }

    method BeginScope(ok: bool) returns (reply: Reply<Token>)
      requires Valid()
      modifies this
      ensures Valid()
      ensures (Now(), reply) == Scopes.BeginScope(env, old(Now()), ok)
    {
      hide SavepointName, Save, BeginRoot;
      var root := depth == 0;
      var savepoint := "";
      if root {
        if !ok { return Throws(DriverFailed); }
        session := BeginRoot(session);
      } else {
        if !env.savepoints { return Throws(NestingUnsupported); }
        savepointSequence := savepointSequence + 1;
        savepoint := SavepointName(savepointSequence);
        if env.backend.Mongodb? { return Throws(MongoNesting); }
        if !ok { return Throws(DriverFailed); }
        session := Save(env.backend, session, savepoint);
      }
      depth := depth + 1;
      callbacks := callbacks + [[]];
      scopeSequence := scopeSequence + 1;
      scopeIds := scopeIds + [scopeSequence];
      return Done(Token(root, savepoint, depth, scopeSequence));
    }

    /** Runs every callback, whichever of them throw, and reports the first failure. */
    method RunCallbacks(run: seq<Callback>) returns (failure: Option<Callback>)
      modifies this`invoked
      ensures invoked == old(invoked) + run
      ensures failure == FirstThrowing(run, env.throwing)
    {
      failure := None;
      for k := 0 to |run|
        invariant invoked == old(invoked) + run[..k]
        invariant FirstThrowing(run, env.throwing) ==
                  if failure.Some? then failure else FirstThrowing(run[k..], env.throwing)
      {
        invoked := invoked + [run[k]];
        assert run[..k + 1] == run[..k] + [run[k]];
        if run[k] in env.throwing && failure.None? {
          failure := Some(run[k]);
        }
      }
      assert run[..|run|] == run;
    }

    /** The callbacks of all levels, outermost level first. */
    method Gather() returns (run: seq<Callback>)
      ensures run == Levels(callbacks)
    {
      run := [];
      for k := 0 to |callbacks|
        invariant run + Levels(callbacks[k..]) == Levels(callbacks)
      {
        run := run + callbacks[k];
        assert callbacks[k..][1..] == callbacks[k + 1..];
      }
    }

    method CommitScope(token: Token, ok: bool) returns (reply: Reply<()>)
      requires Valid()
      modifies this
      ensures Valid()
      ensures (Now(), reply) == Scopes.CommitScope(env, old(Now()), token, ok)
    {
      var fault := Validate(Now(), token);
      if fault.Some? { return Throws(fault.value); }
      if token.root {
        if !ok { return Throws(DriverFailed); }
        session := CommitRoot(session);
        depth := 0;
        scopeIds := [];
        var run := Gather();
        callbacks := [];
        var failure := RunCallbacks(run);
        return if failure.Some? then Throws(CallbackFailed(failure.value)) else Done(());
      }
      if Releases(env.backend) {
        var released := Called(ok, Release(session, token.savepoint));
        if released.None? { return Throws(DriverFailed); }
        session := released.value;
      }
      var moved := callbacks[depth - 1];
      callbacks := callbacks[..depth - 1];
      callbacks := callbacks[depth - 2 := callbacks[depth - 2] + moved];
      assert callbacks == old(callbacks)[..depth - 2] + [old(callbacks)[depth - 2] + moved];
      scopeIds := scopeIds[..depth - 1];
      depth := depth - 1;
      return Done(());
    }

    method RollbackScope(token: Token, ok: bool) returns (reply: Reply<()>)
      requires Valid()
      modifies this
      ensures Valid()
      ensures (Now(), reply) == Scopes.RollbackScope(env, old(Now()), token, ok)
    {
      var fault := Validate(Now(), token);
      if fault.Some? { return Throws(fault.value); }
      if token.root {
        if !ok { return Throws(DriverFailed); }
        session := RollbackRoot(session);
        depth, scopeIds, callbacks := 0, [], [];
        return Done(());
      }
      if !env.backend.Mongodb? {
        var back := Called(ok, RollbackTo(session, token.savepoint));
        if back.None? { return Throws(DriverFailed); }
        session := back.value;
      }
      callbacks := callbacks[..depth - 1];
      scopeIds := scopeIds[..depth - 1];
      depth := depth - 1;
      return Done(());
    }

    method AfterCommit(callback: Option<Callback>) returns (reply: Reply<()>)
      requires Valid()
      modifies this
      ensures Valid()
      ensures (Now(), reply) == Scopes.AfterCommit(env, old(Now()), callback)
    {
      if callback.None? { return Throws(EmptyCallback); }
      if depth != 0 {
        callbacks := callbacks[depth - 1 := callbacks[depth - 1] + [callback.value]];
        return Done(());
      }
      var failure := RunCallbacks([callback.value]);
      return if failure.Some? then Throws(CallbackFailed(failure.value)) else Done(());
    }

    method Begin(ok: bool) returns (reply: Reply<()>)
      requires Valid()
      modifies this
      ensures Valid()
      ensures (Now(), reply) == Scopes.Begin(env, old(Now()), ok)
    {
      if depth != 0 { return Throws(AlreadyBegun); }
      var begun := BeginScope(ok);
      return if begun.Done? then Done(()) else Throws(begun.fault);
    }

    method Commit(ok: bool) returns (reply: Reply<()>)
      requires Valid()
      modifies this
      ensures Valid()
      ensures (Now(), reply) == Scopes.Commit(env, old(Now()), ok)
    {
      if depth == 0 { return Done(()); }
      if depth != 1 { return Throws(NestedActive); }
      reply := CommitScope(Token(true, "", 1, scopeIds[|scopeIds| - 1]), ok);
    }

    method Rollback(ok: bool) returns (reply: Reply<()>)
      requires Valid()
      modifies this
      ensures Valid()
      ensures (Now(), reply) == Scopes.Rollback(env, old(Now()), ok)
    {
      if depth == 0 { return Done(()); }
      if depth != 1 { return Throws(NestedActive); }
      reply := RollbackScope(Token(true, "", 1, scopeIds[|scopeIds| - 1]), ok);
    }

    method Execute(contents: D, ok: bool) returns (reply: Reply<()>)
      requires Valid()
      modifies this
      ensures Valid()
      ensures (Now(), reply) == Scopes.Execute(old(Now()), contents, ok)
    {
      if !ok { return Throws(DriverFailed); }
      session := session.(contents := contents);
      return Done(());
    }
  }
}
