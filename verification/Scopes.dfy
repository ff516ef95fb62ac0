/** What each operation of `database::Connection` does, as functions on the connection's
    state.  A driver call is the only nondeterminism: `ok` says whether it succeeds, and a
    failing call leaves the database session as it was. */
module Scopes {
  import opened Text
  import opened Driver

  type Callback = nat

  datatype Token = Token(root: bool, savepoint: string, depth: nat, scopeId: nat)

  datatype Fault =
    | NotActive | OutOfOrder | MissingSavepoint          // validate_scope_token
    | NestingUnsupported | MongoNesting                  // begin_scope
    | AlreadyBegun | NestedActive                        // begin, commit, rollback
    | EmptyCallback
    | InvalidTimeout | Expired                           // AsyncTransaction
    | DriverFailed
    | CallbackFailed(callback: Callback)

  datatype Reply<+T> = Done(value: T) | Throws(fault: Fault)

  /** Fixed for the life of a connection; `throwing` are the callbacks that throw when run. */
  datatype Env = Env(backend: Backend, savepoints: bool, throwing: set<Callback>)

  datatype State<D> = State(
    session: Session<D>,
    depth: nat,
    callbacks: seq<seq<Callback>>,
    scopeIds: seq<nat>,
    scopeSequence: nat,
    savepointSequence: nat,
    invoked: seq<Callback>)    // every callback run so far, in order

  function Initial<D>(contents: D): State<D> {
    State(Session(contents, None, []), 0, [], [], 0, 0, [])
  }

  ghost predicate Shaped<D>(s: State<D>) {
    s.depth == |s.callbacks| == |s.scopeIds|
  }

  function SavepointName(n: nat): string {
    "gungnir_sp_" + Numeral(n, 10)
  }

  function Levels(levels: seq<seq<Callback>>): seq<Callback> {
    if levels == [] then [] else levels[0] + Levels(levels[1..])
  }

  function FirstThrowing(callbacks: seq<Callback>, throwing: set<Callback>): Option<Callback> {
    if callbacks == [] then None
    else if callbacks[0] in throwing then Some(callbacks[0])
    else FirstThrowing(callbacks[1..], throwing)
  }

  function RunReply(callbacks: seq<Callback>, throwing: set<Callback>): Reply<()> {
    match FirstThrowing(callbacks, throwing)
    case None => Done(())
    case Some(c) => Throws(CallbackFailed(c))
  }

  function Validate<D>(s: State<D>, token: Token): Option<Fault>
    requires Shaped(s)
  {
    if s.depth == 0 || s.scopeIds == [] then Some(NotActive)
    else if || token.depth != s.depth || token.scopeId == 0
            || token.scopeId != s.scopeIds[|s.scopeIds| - 1]
            || token.root != (s.depth == 1)
    then Some(OutOfOrder)
    else if !token.root && token.savepoint == "" then Some(MissingSavepoint)
    else None
  }

  function Opened<D>(s: State<D>, session: Session<D>): State<D> {
    s.(session := session, depth := s.depth + 1, callbacks := s.callbacks + [[]],
       scopeIds := s.scopeIds + [s.scopeSequence + 1], scopeSequence := s.scopeSequence + 1)
  }

  function BeginScope<D>(env: Env, s: State<D>, ok: bool): (State<D>, Reply<Token>)
    requires Shaped(s)
  {
    if s.depth == 0 then
      if !ok then (s, Throws(DriverFailed))
      else (Opened(s, BeginRoot(s.session)), Done(Token(true, "", 1, s.scopeSequence + 1)))
    else if !env.savepoints then (s, Throws(NestingUnsupported))
    else
      var numbered := s.(savepointSequence := s.savepointSequence + 1);
      var name := SavepointName(numbered.savepointSequence);
      if env.backend.Mongodb? then (numbered, Throws(MongoNesting))
      else if !ok then (numbered, Throws(DriverFailed))
      else (Opened(numbered, Save(env.backend, s.session, name)),
            Done(Token(false, name, s.depth + 1, s.scopeSequence + 1)))
  }

  /** The innermost scope is gone; its callbacks join those of the scope around it. */
  function Merged<D>(s: State<D>, session: Session<D>): State<D>
    requires Shaped(s) && s.depth >= 2
  {
    var n := s.depth;
    s.(session := session, depth := n - 1, scopeIds := s.scopeIds[..n - 1],
       callbacks := s.callbacks[..n - 2] + [s.callbacks[n - 2] + s.callbacks[n - 1]])
  }

  function Discarded<D>(s: State<D>, session: Session<D>): State<D>
    requires Shaped(s) && s.depth >= 1
  {
    s.(session := session, depth := s.depth - 1, scopeIds := s.scopeIds[..s.depth - 1],
       callbacks := s.callbacks[..s.depth - 1])
  }

  /** A driver call: it may fail by itself (`ok`) or because its savepoint is unknown. */
  function Called<D>(ok: bool, session: Option<Session<D>>): Option<Session<D>> {
    if ok then session else None
  }

  predicate Releases(backend: Backend) {
    backend.Postgresql? || backend.Mysql? || backend.Sqlite?
  }

  function CommitScope<D>(env: Env, s: State<D>, token: Token, ok: bool): (State<D>, Reply<()>)
    requires Shaped(s)
  {
    match Validate(s, token)
    case Some(fault) => (s, Throws(fault))
    case None =>
      if token.root then
        if !ok then (s, Throws(DriverFailed))
        else
          var run := Levels(s.callbacks);
          (s.(session := CommitRoot(s.session), depth := 0, scopeIds := [], callbacks := [],
              invoked := s.invoked + run),
           RunReply(run, env.throwing))
      else if Releases(env.backend) then
        match Called(ok, Release(s.session, token.savepoint))
        case None => (s, Throws(DriverFailed))
        case Some(session) => (Merged(s, session), Done(()))
      else (Merged(s, s.session), Done(()))
  }

  function RollbackScope<D>(env: Env, s: State<D>, token: Token, ok: bool): (State<D>, Reply<()>)
    requires Shaped(s)
  {
    match Validate(s, token)
    case Some(fault) => (s, Throws(fault))
    case None =>
      if token.root then
        if !ok then (s, Throws(DriverFailed))
        else (s.(session := RollbackRoot(s.session), depth := 0, scopeIds := [], callbacks := []), Done(()))
      else if env.backend.Mongodb? then (Discarded(s, s.session), Done(()))
      else
        match Called(ok, RollbackTo(s.session, token.savepoint))
        case None => (s, Throws(DriverFailed))
        case Some(session) => (Discarded(s, session), Done(()))
  }

  function AfterCommit<D>(env: Env, s: State<D>, callback: Option<Callback>): (State<D>, Reply<()>)
    requires Shaped(s)
  {
    match callback
    case None => (s, Throws(EmptyCallback))
    case Some(c) =>
      if s.depth != 0 then
        (s.(callbacks := s.callbacks[s.depth - 1 := s.callbacks[s.depth - 1] + [c]]), Done(()))
      else
        (s.(invoked := s.invoked + [c]), RunReply([c], env.throwing))
  }

  function Execute<D>(s: State<D>, contents: D, ok: bool): (State<D>, Reply<()>) {
    if ok then (s.(session := s.session.(contents := contents)), Done(()))
    else (s, Throws(DriverFailed))
  }

  /** The token `commit` and `rollback` build for the root scope. */
  function RootToken<D>(s: State<D>): Token
    requires Shaped(s) && s.depth == 1
  {
    Token(true, "", 1, s.scopeIds[0])
  }

  function Begin<D>(env: Env, s: State<D>, ok: bool): (State<D>, Reply<()>)
    requires Shaped(s)
  {
    if s.depth != 0 then (s, Throws(AlreadyBegun))
    else
      var (after, reply) := BeginScope(env, s, ok);
      (after, if reply.Done? then Done(()) else Throws(reply.fault))
  }

  function Commit<D>(env: Env, s: State<D>, ok: bool): (State<D>, Reply<()>)
    requires Shaped(s)
  {
    if s.depth == 0 then (s, Done(()))
    else if s.depth != 1 then (s, Throws(NestedActive))
    else CommitScope(env, s, RootToken(s), ok)
  }

  function Rollback<D>(env: Env, s: State<D>, ok: bool): (State<D>, Reply<()>)
    requires Shaped(s)
  {
    if s.depth == 0 then (s, Done(()))
    else if s.depth != 1 then (s, Throws(NestedActive))
    else RollbackScope(env, s, RootToken(s), ok)
  }

  // ----- runs -----

  datatype Op<D> =
    | OpBeginScope(ok: bool)
    | OpCommitScope(token: Token, ok: bool)
    | OpRollbackScope(token: Token, ok: bool)
    | OpBegin(ok: bool)
    | OpCommit(ok: bool)
    | OpRollback(ok: bool)
    | OpAfterCommit(callback: Option<Callback>)
    | OpExecute(contents: D, ok: bool)

  /** The state after one operation; its reply matters only for the tokens it hands out. */
  function Step<D>(env: Env, s: State<D>, op: Op<D>): (t: State<D>)
    requires Shaped(s)
    ensures Shaped(t)
  {
    match op
    case OpBeginScope(ok) => BeginScope(env, s, ok).0
    case OpCommitScope(token, ok) => CommitScope(env, s, token, ok).0
    case OpRollbackScope(token, ok) => RollbackScope(env, s, token, ok).0
    case OpBegin(ok) => Begin(env, s, ok).0
    case OpCommit(ok) => Commit(env, s, ok).0
    case OpRollback(ok) => Rollback(env, s, ok).0
    case OpAfterCommit(callback) => AfterCommit(env, s, callback).0
    case OpExecute(contents, ok) => Execute(s, contents, ok).0
  }

  function Run<D>(env: Env, s: State<D>, ops: seq<Op<D>>): (t: State<D>)
    requires Shaped(s)
    ensures Shaped(t)
    decreases |ops|
  {
    if ops == [] then s else Run(env, Step(env, s, ops[0]), ops[1..])
  }
}
