/** The SQL session behind a connection: its contents, the snapshot of the open
    transaction and the stack of named savepoints, as the supported databases keep them. */
module Driver {
  import opened Text

  datatype Backend = Sqlite | Postgresql | Mysql | Mssql | Mongodb

  datatype Savepoint<D> = Savepoint(name: string, snapshot: D)

  datatype Session<D> = Session(contents: D, root: Option<D>, savepoints: seq<Savepoint<D>>)

  /** Position of the latest savepoint called `name`, or -1. */
  function LastIndex<D>(points: seq<Savepoint<D>>, name: string): (p: int)
    ensures -1 <= p < |points|
  {
    if points == [] then -1
    else if points[|points| - 1].name == name then |points| - 1
    else LastIndex(points[..|points| - 1], name)
  }

  function Without<D>(points: seq<Savepoint<D>>, name: string): seq<Savepoint<D>> {
    if points == [] then []
    else
      var front := Without(points[..|points| - 1], name);
      if points[|points| - 1].name == name then front else front + [points[|points| - 1]]
  }

  function BeginRoot<D>(s: Session<D>): Session<D> {
    Session(s.contents, Some(s.contents), [])
  }

  function CommitRoot<D>(s: Session<D>): Session<D> {
    Session(s.contents, None, [])
  }

  function RollbackRoot<D>(s: Session<D>): Session<D> {
    Session(if s.root.Some? then s.root.value else s.contents, None, [])
  }

  /** MySQL replaces a savepoint of the same name; the others let the new one shadow it. */
  function Save<D>(backend: Backend, s: Session<D>, name: string): Session<D> {
    var kept := if backend.Mysql? then Without(s.savepoints, name) else s.savepoints;
    s.(savepoints := kept + [Savepoint(name, s.contents)])
  }

  /** Going back to a savepoint keeps that savepoint and drops every later one. */
  function RollbackTo<D>(s: Session<D>, name: string): Option<Session<D>> {
    var p := LastIndex(s.savepoints, name);
    if p < 0 then None
    else Some(s.(contents := s.savepoints[p].snapshot, savepoints := s.savepoints[..p + 1]))
  }

  /** Releasing a savepoint drops it and every later one and leaves the contents alone. */
  function Release<D>(s: Session<D>, name: string): Option<Session<D>> {
    var p := LastIndex(s.savepoints, name);
    if p < 0 then None else Some(s.(savepoints := s.savepoints[..p]))
  }

  lemma {:induction false} WithoutAbsent<D>(points: seq<Savepoint<D>>, name: string)
    requires forall p :: 0 <= p < |points| ==> points[p].name != name
    ensures Without(points, name) == points
  {
    if points != [] {
      WithoutAbsent(points[..|points| - 1], name);
    }
  }

  predicate DistinctNames<D>(points: seq<Savepoint<D>>) {
    forall p, q :: 0 <= p < q < |points| ==> points[p].name != points[q].name
  }

  /** Among distinct names the latest savepoint of a name is the only one. */
  lemma {:induction false} LastIndexUnique<D>(points: seq<Savepoint<D>>, p: nat)
    requires DistinctNames(points) && p < |points|
    ensures LastIndex(points, points[p].name) == p
  {
    if p < |points| - 1 {
      LastIndexUnique(points[..|points| - 1], p);
    }
  }
}
