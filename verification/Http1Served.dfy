/** How a connection comes to rest: idle with every request answered, or closed by the server after the
    first answer that ends it; either way every answer has left whole. */
module Http1Served {
  import opened Text
  import opened Framing
  import opened RequestParser
  import opened Chunked
  import opened Http1
  import opened Http1Order
  import opened Http1Answers

  // ----- the answer that ends the connection -----

  ghost predicate NoneCloses(replies: seq<Reply>) {
    forall k :: 0 <= k < |replies| ==> !replies[k].closes
  }

  predicate LastCloses(replies: seq<Reply>) {
    replies != [] && replies[|replies| - 1].closes
  }

  /** Only the last answer can end the connection, and while it is on its way out `closeAfterWrite` says so. */
  ghost predicate ClosesLast(c: Conn) {
    && (c.replies != [] ==> NoneCloses(c.replies[..|c.replies| - 1]))
    && (!c.closing ==> LastCloses(c.replies) == c.closeAfterWrite)
  }

  /** The server closed a connection by itself: nothing is left to write and nothing is running. */
  ghost predicate EndedWhole(c: Conn) {
    c.closing ==> c.output == "" && c.pending.None? && !c.stream && LastCloses(c.replies)
  }

  /** Neither side cuts the connection short: the peer does not hang up, the socket and the body producers do
      not fail, and no producer exceeds the chunk limit. */
  predicate Undisturbed(server: Server, e: Event) {
    match e
    case Readable(_, closed, _) => !closed
    case Writable(_, broke, _) => !broke
    case HandlerDone(_) => true
    case ChunkDone(produced) => !produced.Broke? && (produced.Data? ==> |produced.chunk| <= server.maxChunk)
    case SocketError => false
  }

  predicate AllUndisturbed(server: Server, events: seq<Event>) {
    forall k :: 0 <= k < |events| ==> Undisturbed(server, events[k])
  }

  // ----- every step -----

  /** A new answer after answers that kept the connection. */
  lemma OneMoreReply(replies: seq<Reply>, r: Reply)
    requires !LastCloses(replies) && (replies != [] ==> NoneCloses(replies[..|replies| - 1]))
    ensures var more := replies + [r];
            more[..|more| - 1] == replies && NoneCloses(replies) && LastCloses(more) == r.closes
  {
  }

  lemma AddedCloses(c: Conn, d: Conn, r: Reply)
    requires ClosesLast(c) && !c.closing && !c.closeAfterWrite
    requires d.replies == c.replies + [r] && d.closeAfterWrite == r.closes
    ensures ClosesLast(d)
  {
    OneMoreReply(c.replies, r);
  }

  lemma SameCloses(c: Conn, d: Conn)
    requires ClosesLast(c) && d.replies == c.replies
    requires d.closing || (!c.closing && d.closeAfterWrite == c.closeAfterWrite)
    ensures ClosesLast(d)
  {
  }

  lemma HandlerCloses(server: Server, requests: seq<string>, c: Conn, answer: Answer)
    requires Inv(server, requests, c) && !c.closing && ClosesLast(c)
    ensures ClosesLast(CompleteHandler(server, c, answer)) && !CompleteHandler(server, c, answer).closing
  {
    if c.pending.Some? {
      var d := CompleteHandler(server, c, answer);
      assert !c.closeAfterWrite && !d.closing;
      assert |d.replies| == |c.replies| + 1 && d.replies[..|c.replies|] == c.replies;
      var r := d.replies[|c.replies|];
      assert d.replies == c.replies + [r] && d.closeAfterWrite == r.closes;
      hide CompleteHandler, Inv;
      AddedCloses(c, d, r);
    }
  }

  /** Streaming on changes the last answer's body, never whether it ends the connection. */
  lemma StreamCloses(server: Server, c: Conn, produced: Produced)
    requires !c.closing && ClosesLast(c)
    ensures ClosesLast(CompleteStream(server, c, produced))
    ensures Undisturbed(server, ChunkDone(produced)) ==> !CompleteStream(server, c, produced).closing
  {
    hide CompleteStream, ClosesLast;
    StreamFlags(server, c, produced);
    StreamHeads(server, c, produced);
    SameHeadsClose(c, CompleteStream(server, c, produced));
  }

  lemma StreamFlags(server: Server, c: Conn, produced: Produced)
    requires !c.closing
    ensures var d := CompleteStream(server, c, produced);
            d.closeAfterWrite == c.closeAfterWrite && (Undisturbed(server, ChunkDone(produced)) ==> !d.closing)
  {
    hide SerializeChunk, LastReply;
  }

  lemma SameHeadsClose(c: Conn, d: Conn)
    requires ClosesLast(c) && !c.closing && d.closeAfterWrite == c.closeAfterWrite
    requires HeadsKept(c, d) && |d.replies| == |c.replies|
    ensures ClosesLast(d)
  {
    var n := |c.replies| - 1;
    if n >= 0 {
      forall k | 0 <= k < n ensures !d.replies[..n][k].closes {
        assert !c.replies[..n][k].closes && SameReply(c.replies[k], d.replies[k]);
      }
      assert SameReply(c.replies[n], d.replies[n]);
    }
  }

  lemma PrepareCloses(server: Server, requests: seq<string>, c: Conn, overloaded: bool)
    requires Sound(server) && AllAcceptable(server, requests) && Inv(server, requests, c) && !c.closing && ClosesLast(c)
    ensures var (d, raised) := PrepareResponse(server, c, overloaded);
            raised.None? && ClosesLast(d) && !d.closing
  {
    hide AllAcceptable, ClosesLast;
    PrepareInv(server, requests, c, overloaded);
    var d := PrepareResponse(server, c, overloaded).0;
    assert !d.closing && (d.replies == c.replies ==> d.closeAfterWrite == c.closeAfterWrite) by { PrepareKeeps(server, c, overloaded); }
    if d.replies != c.replies {
      PrepareAdds(server, c, overloaded);
      assert !c.closeAfterWrite;
      AddedCloses(c, d, d.replies[|c.replies|]);
    } else {
      SameCloses(c, d);
    }
  }

  lemma PrepareKeeps(server: Server, c: Conn, overloaded: bool)
    ensures var d := PrepareResponse(server, c, overloaded).0;
            d.closing == c.closing && (d.replies == c.replies ==> d.closeAfterWrite == c.closeAfterWrite)
  {
    hide RequestSize, ParseRequest;
    var d := PrepareResponse(server, c, overloaded).0;
    assert d.replies == c.replies || |d.replies| == |c.replies| + 1;
  }

  lemma PrepareAdds(server: Server, c: Conn, overloaded: bool)
    requires PrepareResponse(server, c, overloaded).0.replies != c.replies
    ensures var d := PrepareResponse(server, c, overloaded).0;
            && !Busy(c) && |d.replies| == |c.replies| + 1 && d.replies == c.replies + [d.replies[|c.replies|]]
            && d.replies[|c.replies|].closes && d.closeAfterWrite
  {
    hide RequestSize, ParseRequest;
  }

  lemma ReadCloses(server: Server, requests: seq<string>, c: Conn, counts: seq<nat>, closed: bool, overloaded: bool)
    requires Sound(server) && AllAcceptable(server, requests) && Inv(server, requests, c) && ClosesLast(c)
    requires !c.closing && c.output == ""
    ensures ClosesLast(ReadReady(server, c, counts, closed, overloaded))
    ensures !closed ==> !ReadReady(server, c, counts, closed, overloaded).closing
  {
    hide Receive, PrepareResponse, AllAcceptable, RequestSize, Answers, Wire, ClosesLast, Sound;
    RestAcceptable(server, requests, |c.dispatched|);
    SoundLimits(server);
    ReceiveAccepts(server, requests[|c.dispatched|..], c, counts, closed);
    var (d, end) := Receive(server, c, counts, closed);
    assert end.PeerClosed? ==> closed by { ReceiveEnd(server, c, counts, closed); }
    ReceivedInv(server, requests, c, d);
    SameCloses(c, d);
    SameCloses(d, Close(d));
    PrepareCloses(server, requests, d, overloaded);
  }

  lemma {:induction false} ReceiveEnd(server: Server, c: Conn, counts: seq<nat>, closed: bool)
    ensures Receive(server, c, counts, closed).1.PeerClosed? ==> closed
    decreases |counts|
  {
    hide RequestSize;
    if counts != [] && c.unread != "" {
      ReceiveEnd(server, Deliver(c, Delivered(c, counts[0])), counts[1..], closed);
    }
  }

  /** Everything queued is written: the connection goes on, or it ends with its last answer complete. */
  lemma FinishCloses(server: Server, requests: seq<string>, c: Conn, overloaded: bool)
    requires Sound(server) && AllAcceptable(server, requests) && Inv(server, requests, c) && ClosesLast(c)
    requires !c.closing && c.output != "" && c.offset == |c.output|
    ensures ClosesLast(Finish(server, c, overloaded)) && EndedWhole(Finish(server, c, overloaded))
  {
    hide Wire, PrepareResponse, AllAcceptable, RequestSize, Sound, Answers, Received;
    if c.stream || c.pendingStream {
      SameCloses(c, Finish(server, c, overloaded));
    } else {
      var e := c.(output := "", offset := 0, terminalQueued := false, closeAfterWrite := false);
      if c.closeAfterWrite {
        SameCloses(c, Close(e));
      } else {
        FlushedInv(server, requests, c);
        SameCloses(c, e);
        hide ClosesLast;
        PrepareCloses(server, requests, e, overloaded);
      }
    }
  }

  lemma WriteCloses(server: Server, requests: seq<string>, c: Conn, counts: seq<nat>, broke: bool, overloaded: bool)
    requires Sound(server) && AllAcceptable(server, requests) && Inv(server, requests, c) && ClosesLast(c)
    requires !c.closing && c.output != ""
    ensures ClosesLast(WriteReady(server, c, counts, broke, overloaded))
    ensures !broke ==> EndedWhole(WriteReady(server, c, counts, broke, overloaded))
  {
    assert c.offset <= |c.output|;
    hide Wire, Finish, AllAcceptable, RequestSize, Sound, Inv, ClosesLast;
    SendInv(server, requests, c, counts);
    var d := Send(c, counts);
    SameCloses(c, d);
    SameCloses(d, Close(d));
    if d.offset == |d.output| {
      FinishCloses(server, requests, d, overloaded);
    }
  }

  lemma StepCloses(server: Server, requests: seq<string>, c: Conn, e: Event)
    requires Sound(server) && AllAcceptable(server, requests) && Inv(server, requests, c) && ClosesLast(c)
    ensures c.offset <= |c.output| && ClosesLast(Step(server, c, e))
    ensures Undisturbed(server, e) && EndedWhole(c) ==> EndedWhole(Step(server, c, e))
  {
    assert c.offset <= |c.output|;
    hide Wire, AllAcceptable, Sound, WriteReady, ReadReady, CompleteHandler, CompleteStream, Inv, ClosesLast;
    if !c.closing {
      match e
      case Readable(counts, closed, overloaded) =>
        if c.output == "" { ReadCloses(server, requests, c, counts, closed, overloaded); }
      case Writable(counts, broke, overloaded) =>
        if c.output != "" { WriteCloses(server, requests, c, counts, broke, overloaded); }
      case HandlerDone(answer) => HandlerCloses(server, requests, c, answer);
      case ChunkDone(produced) => StreamCloses(server, c, produced);
      case SocketError => SameCloses(c, Close(c));
    }
  }

  lemma {:induction false} RunCloses(server: Server, requests: seq<string>, c: Conn, events: seq<Event>)
    requires Sound(server) && AllAcceptable(server, requests) && Inv(server, requests, c) && NothingForgotten(server, c)
    requires ClosesLast(c)
    ensures c.offset <= |c.output| && ClosesLast(Run(server, c, events))
    ensures EndedWhole(c) && AllUndisturbed(server, events) ==> EndedWhole(Run(server, c, events))
    decreases |events|
  {
    assert c.offset <= |c.output|;
    hide AllAcceptable, Sound, Inv, NothingForgotten, Step, ClosesLast, EndedWhole, Undisturbed;
    if events != [] {
      StepCloses(server, requests, c, events[0]);
      StepInv(server, requests, c, events[0]);
      RunCloses(server, requests, Step(server, c, events[0]), events[1..]);
    }
  }

  // ----- connections at rest -----

  lemma IdleServed(server: Server, requests: seq<string>, c: Conn)
    requires ValidLimits(server.limits) && AllAcceptable(server, requests)
    requires Inv(server, requests, c) && NothingForgotten(server, c)
    requires c.unread == "" && !Busy(c) && !c.closing
    ensures c.dispatched == requests && c.sent == Wire(c.replies) && |c.replies| == |requests|
    ensures forall k :: 0 <= k < |c.replies| ==> Settled(c.replies[k])
  {
    hide RequestSize, Wire;
    var k := |c.dispatched|;
    RestAcceptable(server, requests, k);
    FramesNext(server, requests[k..], c.input, c.unread);
    assert c.input + "" == c.input && c.sent + "" == c.sent && c.output[c.offset..] == "";
  }

  lemma ClosedWhole(server: Server, requests: seq<string>, c: Conn)
    requires Inv(server, requests, c) && c.closing && EndedWhole(c)
    ensures c.sent == Wire(c.replies) && |c.replies| == |c.dispatched| && c.dispatched <= requests
    ensures forall k :: 0 <= k < |c.replies| ==> Settled(c.replies[k])
  {
    hide Wire;
    assert c.output[c.offset..] == "" && c.sent + "" == c.sent;
  }

  /** At rest: idle with all input read, or closed by the server. */
  predicate AtRest(c: Conn) {
    c.closing || (c.unread == "" && !Busy(c))
  }

  /** ANSWERS LEAVE WHOLE.  When a connection has come to rest, idle after all input or closed by the server in
      a run that nothing else cut short, every request taken has been answered and every answer has
      left completely.  An idle connection has taken every request.  A closed one stopped after the
      first request whose answer ends the connection, and not before. */
  lemma AllServed(server: Server, requests: seq<string>, events: seq<Event>)
    requires Sound(server) && AllAcceptable(server, requests)
    requires var c := Run(server, Fresh(Flatten(requests)), events);
             AtRest(c) && (c.closing ==> AllUndisturbed(server, events))
    ensures var c := Run(server, Fresh(Flatten(requests)), events);
            && c.dispatched <= requests && |c.replies| == |c.dispatched| && c.sent == Wire(c.replies)
            && (forall k :: 0 <= k < |c.replies| ==> Settled(c.replies[k]))
            && (!c.closing ==> c.dispatched == requests && NoneCloses(c.replies))
            && (c.closing ==> LastCloses(c.replies) && NoneCloses(c.replies[..|c.replies| - 1]))
  {
    var start := Fresh(Flatten(requests));
    FreshInv(server, requests);
    RunInv(server, requests, start, events);
    RunCloses(server, requests, start, events);
    var c := Run(server, start, events);
    hide Run, Inv, NothingForgotten, Wire, AllAcceptable;
    if c.closing {
      ClosedWhole(server, requests, c);
    } else {
      SoundLimits(server);
      IdleServed(server, requests, c);
      IdleKeeps(server, requests, c);
    }
  }

  lemma IdleKeeps(server: Server, requests: seq<string>, c: Conn)
    requires Inv(server, requests, c) && ClosesLast(c) && !Busy(c) && !c.closing
    ensures NoneCloses(c.replies)
  {
    hide Wire;
    if c.replies != [] {
      var n := |c.replies| - 1;
      forall k | 0 <= k < |c.replies| ensures !c.replies[k].closes {
        assert k < n ==> c.replies[..n][k] == c.replies[k];
      }
    }
  }

  /** LAST ANSWER.  In every run, disturbed or not, nothing is answered after an answer that ends the
      connection; and in an undisturbed run the server has closed if and only if such an answer is
      out completely. */
  lemma ClosesExactly(server: Server, requests: seq<string>, events: seq<Event>)
    requires Sound(server) && AllAcceptable(server, requests)
    ensures var c := Run(server, Fresh(Flatten(requests)), events);
            && (c.replies != [] ==> NoneCloses(c.replies[..|c.replies| - 1]))
            && (AllUndisturbed(server, events) ==>
                  (c.closing <==> LastCloses(c.replies) && c.output == "" && !c.stream))
  {
    var start := Fresh(Flatten(requests));
    FreshInv(server, requests);
    hide Run, NothingForgotten, Inv, AllAcceptable, Sound, ClosesLast, AllUndisturbed, EndedWhole;
    RunInv(server, requests, start, events);
    assert ClosesLast(start) && EndedWhole(start) by { FreshCloses(Flatten(requests)); }
    RunCloses(server, requests, start, events);
    EndsExactly(server, requests, Run(server, start, events));
  }

  lemma FreshCloses(unread: string)
    ensures ClosesLast(Fresh(unread)) && EndedWhole(Fresh(unread))
  {
  }

  lemma EndsExactly(server: Server, requests: seq<string>, c: Conn)
    requires Inv(server, requests, c) && ClosesLast(c)
    ensures c.replies != [] ==> NoneCloses(c.replies[..|c.replies| - 1])
    ensures EndedWhole(c) ==> (c.closing <==> LastCloses(c.replies) && c.output == "" && !c.stream)
  {
    hide Wire, Answers, Received, NoneCloses;
  }
}
