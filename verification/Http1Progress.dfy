/** A connection never gets stuck: wherever a run has led, with a peer that goes on reading and sending and handlers that
    answer, it comes to rest with everything answered. */
module Http1Progress {
  import opened Text
  import opened Framing
  import opened RequestParser
  import opened Http1
  import opened Http1Order
  import opened Http1Served

  /** What a cooperative world does next. */
  function NextEvent(c: Conn, r: Response): Event {
    if c.output != "" then Writable([|c.output|], false, false)
    else if c.pending.Some? then HandlerDone(Whole(r))
    else if c.pendingStream then ChunkDone(End)
    else Readable([1], false, false)
  }

  /** How far the request in progress is from being answered. */
  function Phase(c: Conn): nat {
    if c.output != "" then if c.stream then 3 else 1
    else if c.pending.Some? || c.pendingStream then 2 else 0
  }

  function Distance(requests: seq<string>, c: Conn): nat
    requires |c.dispatched| <= |requests|
  {
    5 * (|requests| - |c.dispatched|) + |c.unread| + Phase(c)
  }

  ghost predicate Reachable(server: Server, requests: seq<string>, c: Conn) {
    Sound(server) && AllAcceptable(server, requests) && Inv(server, requests, c) && NothingForgotten(server, c)
  }

  /** The event brought the connection nearer to rest. */
  ghost predicate Nearer(requests: seq<string>, c: Conn, d: Conn) {
    |d.dispatched| <= |requests| && |c.dispatched| <= |requests| && (d.closing || Distance(requests, d) < Distance(requests, c))
  }

  // ----- taking the next request -----

  /** A connection that is not busy takes the next request when it is whole, and waits otherwise. */
  lemma PrepareTakes(server: Server, requests: seq<string>, c: Conn)
    requires ValidLimits(server.limits) && AllAcceptable(server, requests) && Received(server, requests, c) && !c.hungUp && !Busy(c)
    ensures var (d, raised) := PrepareResponse(server, c, false);
            && raised.None?
            && (d == c || (d.pending.Some? && |d.dispatched| == |c.dispatched| + 1 <= |requests| && d.output == "" && d.unread == c.unread
                           && !d.pendingStream && d.closing == c.closing))
  {
    var k := |c.dispatched|;
    RestAcceptable(server, requests, k);
    FramesNext(server, requests[k..], c.input, c.unread);
    hide RequestSize, ParseRequest, Flatten;
    if requests[k..] != [] {
      assert Acceptable(server, requests[k..][0]);
    }
  }

  // ----- each kind of event -----

  lemma SumOne(n: nat)
    ensures Sum([n]) == n
  {
    assert [n][1..] == [];
  }

  lemma FinishNears(server: Server, requests: seq<string>, c: Conn, before: Conn)
    requires ValidLimits(server.limits) && AllAcceptable(server, requests) && OneActivity(before) && Received(server, requests, before)
    requires !before.closing && before.output != ""
    requires c == before.(offset := c.offset, sent := c.sent)
    ensures Nearer(requests, before, Finish(server, c, false))
  {
    if !c.stream && !c.pendingStream && !c.closeAfterWrite && c.input != "" {
      var e := c.(output := "", offset := 0, terminalQueued := false, closeAfterWrite := false);
      assert !Busy(e);
      hide PrepareResponse;
      PrepareTakes(server, requests, e);
    }
  }

  lemma WriteNears(server: Server, requests: seq<string>, c: Conn)
    requires Reachable(server, requests, c) && !c.closing && c.output != ""
    ensures Nearer(requests, c, WriteReady(server, c, [|c.output|], false, false))
  {
    SumOne(|c.output|);
    assert ValidLimits(server.limits) by { LimitsOf(server); }
    hide Sum, Finish, Sound, AllAcceptable;
    var d := Send(c, [|c.output|]);
    assert d.offset == |d.output|;
    FinishNears(server, requests, d, c);
  }

  lemma LimitsOf(server: Server)
    requires Sound(server)
    ensures ValidLimits(server.limits)
  {
  }

  lemma HandlerNears(server: Server, requests: seq<string>, c: Conn, r: Response)
    requires Reachable(server, requests, c) && !c.closing && c.output == "" && c.pending.Some?
    ensures Nearer(requests, c, CompleteHandler(server, c, Whole(r)))
  {
    var p := c.pending.value;
    var keep := p.keepAlive && !c.closeAfterWrite;
    assert server.render(r, p.omitBody, keep) != "";
    hide AllAcceptable, Answers;
  }

  lemma StreamNears(server: Server, requests: seq<string>, c: Conn)
    requires Reachable(server, requests, c) && !c.closing && c.output == "" && c.pendingStream
    ensures Nearer(requests, c, CompleteStream(server, c, End))
  {
    assert c.replies != [];
    hide AllAcceptable, Answers, Wire;
  }

  lemma ReceiveOne(server: Server, requests: seq<string>, c: Conn)
    requires ValidLimits(server.limits) && AllAcceptable(server, requests) && Received(server, requests, c) && !c.hungUp && c.unread != ""
    ensures var (d, end) := Receive(server, c, [1], false);
            && d == c.(input := d.input, unread := d.unread) && |d.unread| < |c.unread| && (end.Complete? || end.Blocked?)
            && d.input + d.unread == c.input + c.unread
  {
    var n := Delivered(c, 1);
    var d := Deliver(c, n);
    var k := |c.dispatched|;
    RestAcceptable(server, requests, k);
    FramesNext(server, requests[k..], d.input, d.unread);
    hide RequestSize, Flatten;
    assert [1][1..] == [];
    assert Receive(server, d, [], false) == (d, Blocked);
  }

  lemma ReadNears(server: Server, requests: seq<string>, c: Conn)
    requires Reachable(server, requests, c) && !c.closing && !Busy(c) && c.unread != ""
    ensures Nearer(requests, c, ReadReady(server, c, [1], false, false))
  {
    assert ValidLimits(server.limits) by { LimitsOf(server); }
    ReceiveOne(server, requests, c);
    var (d, end) := Receive(server, c, [1], false);
    hide Receive, PrepareResponse, Sound, AllAcceptable, Answers;
    assert !Busy(d);
    PrepareTakes(server, requests, d);
  }

  // ----- to rest -----

  lemma Nears(server: Server, requests: seq<string>, c: Conn, r: Response)
    requires Reachable(server, requests, c) && !AtRest(c)
    ensures c.offset <= |c.output| && Undisturbed(server, NextEvent(c, r))
    ensures Reachable(server, requests, Step(server, c, NextEvent(c, r)))
    ensures Nearer(requests, c, Step(server, c, NextEvent(c, r)))
  {
    StepInv(server, requests, c, NextEvent(c, r));
    hide WriteReady, CompleteHandler, CompleteStream, ReadReady, Answers, AllAcceptable, Sound, NothingForgotten;
    if c.output != "" {
      WriteNears(server, requests, c);
    } else if c.pending.Some? {
      HandlerNears(server, requests, c, r);
    } else if c.pendingStream {
      StreamNears(server, requests, c);
    } else {
      ReadNears(server, requests, c);
    }
  }

  lemma {:induction false} Settles(server: Server, requests: seq<string>, c: Conn, r: Response) returns (events: seq<Event>)
    requires Reachable(server, requests, c)
    ensures c.offset <= |c.output| && AllUndisturbed(server, events) && AtRest(Run(server, c, events))
    decreases if |c.dispatched| <= |requests| && !c.closing then Distance(requests, c) + 1 else 0
  {
    assert c.offset <= |c.output|;
    if AtRest(c) {
      events := [];
    } else {
      var e := NextEvent(c, r);
      Nears(server, requests, c, r);
      hide Reachable, Step, Distance, Undisturbed;
      var d := Step(server, c, e);
      var rest := Settles(server, requests, d, r);
      events := [e] + rest;
      assert events[0] == e && events[1..] == rest;
      assert forall k :: 1 <= k < |events| ==> events[k] == rest[k - 1];
    }
  }

  /** NEVER STUCK.  Wherever a run over good requests has led, undisturbed events exist that bring the connection to
      rest, so that everything it took has been answered in full. */
  lemma NeverStuck(server: Server, requests: seq<string>, events: seq<Event>)
    requires Sound(server) && AllAcceptable(server, requests)
    ensures exists more :: AllUndisturbed(server, more) && AtRest(Run(server, Run(server, Fresh(Flatten(requests)), events), more))
  {
    var start := Fresh(Flatten(requests));
    FreshInv(server, requests);
    RunInv(server, requests, start, events);
    hide Run, Inv, NothingForgotten, Sound, AllAcceptable, AtRest;
    var more := Settles(server, requests, Run(server, start, events), 0);
  }
}
