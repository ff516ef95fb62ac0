/** The response body of an HTTP/2 stream: chunks pushed by the producer, read by the frame writer in
    pieces of its own choosing. */
module Http2Body {
  import opened Text

  datatype Body = Body(chunks: seq<string>, offset: nat, eof: bool)

  datatype Read = Data(bytes: string, last: bool) | Deferred

  const EMPTY := Body([], 0, false)

  /** No chunk is empty and the cursor is inside the first. */
  ghost predicate Valid(b: Body) {
    && (forall k :: 0 <= k < |b.chunks| ==> b.chunks[k] != "")
    && (if b.chunks == [] then b.offset == 0 else b.offset < |b.chunks[0]|)
  }

  /** The bytes not yet read. */
  ghost function Pending(b: Body): string
    requires Valid(b)
  {
    if b.chunks == [] then "" else b.chunks[0][b.offset..] + Flatten(b.chunks[1..])
  }

  function Pushed(b: Body, chunk: string): Body {
    if chunk == "" then b else b.(chunks := b.chunks + [chunk])
  }

  function Finished(b: Body): Body {
    b.(eof := true)
  }

  function Advanced(b: Body, count: nat): Body
    requires b.chunks != []
  {
    if b.offset + count >= |b.chunks[0]| then b.(chunks := b.chunks[1..], offset := 0)
    else b.(offset := b.offset + count)
  }

  function ReadNext(b: Body, length: nat): (Body, Read)
    requires b.chunks != [] ==> b.offset <= |b.chunks[0]|
  {
    if b.chunks == [] then (b, if b.eof then Data("", true) else Deferred)
    else
      var remaining := |b.chunks[0]| - b.offset;
      var count := if length < remaining then length else remaining;
      var next := Advanced(b, count);
      (next, Data(b.chunks[0][b.offset..b.offset + count], next.eof && next.chunks == []))
  }

  /** A push goes to the end of what is pending. */
  lemma PushAppends(b: Body, chunk: string)
    requires Valid(b)
    ensures Valid(Pushed(b, chunk)) && Pending(Pushed(b, chunk)) == Pending(b) + chunk
  {
    if chunk != "" {
      if b.chunks == [] {
        assert chunk[0..] == chunk;
        assert (b.chunks + [chunk])[1..] == [];
        assert Flatten([]) == [];
      } else {
        assert (b.chunks + [chunk])[1..] == b.chunks[1..] + [chunk];
        FlattenAppend(b.chunks[1..], chunk);
      }
    }
  }

  /** A read takes from the front, defers exactly when nothing is pending and more may come, and
      flags the end exactly when it takes the last byte of a finished body. */
  lemma ReadMeans(b: Body, length: nat)
    requires Valid(b)
    ensures var (next, read) := ReadNext(b, length);
            && Valid(next) && next.eof == b.eof
            && (read.Deferred? <==> Pending(b) == "" && !b.eof)
            && (read.Deferred? ==> next == b)
            && (read.Data? ==>
                  && Pending(b) == read.bytes + Pending(next) && |read.bytes| <= length
                  && (read.last <==> b.eof && Pending(next) == "")
                  && (length > 0 && Pending(b) != "" ==> read.bytes != ""))
  {
    if b.chunks != [] {
      var remaining := |b.chunks[0]| - b.offset;
      var count := if length < remaining then length else remaining;
      if count < remaining {
        AdvanceWithin(b, count);
      } else {
        AdvancePast(b, count);
      }
      hide Pending, Advanced;
    }
  }

  lemma AdvanceWithin(b: Body, count: nat)
    requires Valid(b) && b.chunks != [] && b.offset + count < |b.chunks[0]|
    ensures var next := Advanced(b, count);
            && Valid(next) && next.chunks != []
            && Pending(b) == b.chunks[0][b.offset..b.offset + count] + Pending(next)
            && Pending(b) != "" && Pending(next) != ""
  {
    hide Flatten;
    var first, mid := b.chunks[0], b.offset + count;
    assert first[b.offset..] == first[b.offset..mid] + first[mid..];
    var next := Advanced(b, count);
    assert next == b.(offset := mid);
    hide Advanced;
  }

  lemma AdvancePast(b: Body, count: nat)
    requires Valid(b) && b.chunks != [] && b.offset + count == |b.chunks[0]|
    ensures var next := Advanced(b, count);
            && Valid(next)
            && Pending(b) == b.chunks[0][b.offset..b.offset + count] + Pending(next)
            && Pending(b) != "" && (next.chunks == [] <==> Pending(next) == "")
  {
    var rest := b.chunks[1..];
    PendingWhole(rest, b.eof);
    hide Flatten;
    assert b.chunks[0][b.offset..] == b.chunks[0][b.offset..b.offset + count];
  }

  lemma PendingWhole(chunks: seq<string>, eof: bool)
    requires forall k :: 0 <= k < |chunks| ==> chunks[k] != ""
    ensures Valid(Body(chunks, 0, eof)) && Pending(Body(chunks, 0, eof)) == Flatten(chunks)
    ensures chunks == [] <==> Flatten(chunks) == ""
  {
    if chunks != [] {
      assert chunks[0][0..] == chunks[0];
    }
  }

  // ----- whole runs -----

  datatype Op = Push(chunk: string) | Finish | Take(length: nat)

  /** `pushed` and `sent` record all bytes in and out; after the end is flagged the writer asks no more. */
  datatype State = State(body: Body, pushed: string, sent: string, ended: bool)

  const START := State(EMPTY, "", "", false)

  function Step(s: State, op: Op): State
    requires s.body.chunks != [] ==> s.body.offset <= |s.body.chunks[0]|
  {
    match op
    case Push(chunk) => s.(body := Pushed(s.body, chunk), pushed := s.pushed + chunk)
    case Finish => s.(body := Finished(s.body))
    case Take(length) =>
      if s.ended then s
      else
        var (next, read) := ReadNext(s.body, length);
        if read.Deferred? then s else s.(body := next, sent := s.sent + read.bytes, ended := read.last)
  }

  ghost predicate Inv(s: State) {
    && Valid(s.body)
    && s.pushed == s.sent + Pending(s.body)
    && (s.ended ==> s.body.eof)
  }

  lemma StepInv(s: State, op: Op)
    requires Inv(s)
    ensures Inv(Step(s, op))
    ensures s.ended ==> Step(s, op).ended && Step(s, op).sent == s.sent
    ensures s.body.eof ==> Step(s, op).body.eof
  {
    match op
    case Push(chunk) => PushInv(s, chunk);
    case Finish => FinishInv(s);
    case Take(length) => TakeInv(s, length);
  }

  lemma PushInv(s: State, chunk: string)
    requires Inv(s)
    ensures Inv(Step(s, Push(chunk))) && Step(s, Push(chunk)).body.eof == s.body.eof
  {
    PushAppends(s.body, chunk);
    hide Pending, Valid;
    assert (s.sent + Pending(s.body)) + chunk == s.sent + (Pending(s.body) + chunk);
  }

  lemma FinishInv(s: State)
    requires Inv(s)
    ensures Inv(Step(s, Finish))
  {
    hide Flatten;
    assert Pending(Finished(s.body)) == Pending(s.body);
  }

  lemma TakeInv(s: State, length: nat)
    requires Inv(s)
    ensures Inv(Step(s, Take(length))) && Step(s, Take(length)).body.eof == s.body.eof
    ensures s.ended ==> Step(s, Take(length)) == s
  {
    ReadMeans(s.body, length);
    var (next, read) := ReadNext(s.body, length);
    hide Pending, Valid, ReadNext;
    if read.Data? {
      assert s.sent + (read.bytes + Pending(next)) == (s.sent + read.bytes) + Pending(next);
    }
  }

  ghost function Run(s: State, ops: seq<Op>): (r: State)
    requires Inv(s)
    ensures Inv(r)
    decreases |ops|
  {
    if ops == [] then s
    else
      StepInv(s, ops[0]);
      Run(Step(s, ops[0]), ops[1..])
  }

  /** FIFO BYTES.  After any interleaving of pushes, finish and reads, what was sent is a prefix of what
      was pushed, and the rest is exactly what is pending. */
  lemma FifoBytes(ops: seq<Op>)
    ensures var s := Run(START, ops);
            s.sent <= s.pushed && s.pushed[|s.sent|..] == Pending(s.body)
  {
    hide Run;
  }

  ghost predicate NoPushAfterFinish(ops: seq<Op>, finished: bool)
    decreases |ops|
  {
    ops == [] || (!(finished && ops[0].Push?) && NoPushAfterFinish(ops[1..], finished || ops[0].Finish?))
  }

  lemma {:induction false} EndedIsEmpty(s: State, ops: seq<Op>)
    requires Inv(s) && (s.ended ==> Pending(s.body) == "") && NoPushAfterFinish(ops, s.body.eof)
    ensures var r := Run(s, ops); r.ended ==> Pending(r.body) == ""
    decreases |ops|
  {
    if ops != [] {
      StepInv(s, ops[0]);
      var next := Step(s, ops[0]);
      if ops[0].Take? {
        ReadMeans(s.body, ops[0].length);
      }
      assert next.body.eof == (s.body.eof || ops[0].Finish?);
      hide ReadNext, Pending, Pushed;
      EndedIsEmpty(next, ops[1..]);
    }
  }

  /** END OF STREAM.  When nothing is pushed after finish, the end is flagged only after finish and only
      once every byte is out. */
  lemma EndIsComplete(ops: seq<Op>)
    requires NoPushAfterFinish(ops, false) && Run(START, ops).ended
    ensures Run(START, ops).body.eof && Run(START, ops).sent == Run(START, ops).pushed
  {
    EndedIsEmpty(START, ops);
    hide Run, Pending;
  }

  ghost predicate Reads(ops: seq<Op>) {
    forall k :: 0 <= k < |ops| ==> ops[k].Take? && ops[k].length > 0
  }

  /** DRAINING.  A finished body is sent completely by any reads of positive size, in at most as many reads
      as it has bytes left, or one read when it has none. */
  lemma {:induction false} Drains(s: State, ops: seq<Op>)
    requires Inv(s) && s.body.eof && !s.ended && Reads(ops)
    requires |ops| > 0 && |ops| >= |Pending(s.body)|
    ensures Run(s, ops).ended && Run(s, ops).sent == s.pushed
    decreases |ops|
  {
    StepInv(s, ops[0]);
    ReadMeans(s.body, ops[0].length);
    var next := Step(s, ops[0]);
    assert next.pushed == s.pushed;
    hide ReadNext, Pending;
    if next.ended {
      SentForGood(next, ops[1..]);
    } else {
      Drains(next, ops[1..]);
    }
  }

  lemma {:induction false} SentForGood(s: State, ops: seq<Op>)
    requires Inv(s) && s.ended
    ensures Run(s, ops).ended && Run(s, ops).sent == s.sent
    decreases |ops|
  {
    if ops != [] {
      StepInv(s, ops[0]);
      hide Inv, Step;
      SentForGood(Step(s, ops[0]), ops[1..]);
    }
  }

  // ----- the session's bodies -----

  class ResponseBodies {
    var bodies: map<int, Body>

    ghost predicate Sound()
      reads this
    {
      forall id :: id in bodies ==> Valid(bodies[id])
    }

    constructor ()
      ensures bodies == map[]
    {
      bodies := map[];
    }

    method PushStreamChunk(id: int, chunk: string) returns (threw: bool)
      requires Sound()
      modifies this
      ensures Sound()
      ensures threw <==> chunk != "" && id !in old(bodies)
      ensures bodies == if id in old(bodies) then old(bodies)[id := Pushed(old(bodies)[id], chunk)] else old(bodies)
    {
      if chunk == "" {
        assert id in bodies ==> bodies[id := bodies[id]] == bodies;
        return false;
      }
      if id !in bodies { return true; }
      PushAppends(bodies[id], chunk);
      bodies := bodies[id := bodies[id].(chunks := bodies[id].chunks + [chunk])];
      return false;
    }

    method FinishStream(id: int)
      requires Sound()
      modifies this
      ensures Sound()
      ensures bodies == if id in old(bodies) then old(bodies)[id := Finished(old(bodies)[id])] else old(bodies)
    {
      if id in bodies {
        bodies := bodies[id := bodies[id].(eof := true)];
      }
    }

    method ReadResponseBody(id: int, length: nat) returns (read: Read)
      requires Sound()
      modifies this
      ensures Sound()
      ensures id !in old(bodies) ==> read == Data("", true) && bodies == old(bodies)
      ensures id in old(bodies) ==>
                && read == ReadNext(old(bodies)[id], length).1
                && bodies == old(bodies)[id := ReadNext(old(bodies)[id], length).0]
    {
      if id !in bodies { return Data("", true); }
      var body := bodies[id];
      ReadMeans(body, length);
      hide Pending;
      if body.chunks == [] {
        assert bodies[id := bodies[id]] == bodies;
        return if body.eof then Data("", true) else Deferred;
      }
      var chunk := body.chunks[0];
      var remaining := |chunk| - body.offset;
      var count := if remaining < length then remaining else length;
      var bytes := chunk[body.offset..body.offset + count];
      body := body.(offset := body.offset + count);
      if body.offset >= |chunk| {
        body := body.(chunks := body.chunks[1..], offset := 0);
      }
      bodies := bodies[id := body];
      return Data(bytes, body.eof && body.chunks == []);
    }

    method CloseStream(id: int)
      requires Sound()
      modifies this
      ensures Sound() && bodies == old(bodies) - {id}
    {
      bodies := bodies - {id};
    }
  }
}
