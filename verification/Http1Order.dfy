/** Requests are taken off the wire one by one and answered in order, however the bytes arrive
    and leave. */
module Http1Order {
  import opened Text
  import opened Framing
  import opened RequestParser
  import opened Chunked
  import opened Http1

  /** A request the server accepts: framed as a whole within the limits, and parsed. */
  ghost predicate Acceptable(server: Server, raw: string) {
    RequestSize(raw, server.limits) == Framed(|raw|) && ParseRequest(raw).Good?
  }

  ghost predicate AllAcceptable(server: Server, requests: seq<string>) {
    forall k :: 0 <= k < |requests| ==> Acceptable(server, requests[k])
  }

  // ----- framing a stream of requests -----

  /** The input buffer against the request stream it is the beginning of: the framing waits
      until the next request is whole and then cuts out exactly that request. */
  lemma FramesNext(server: Server, requests: seq<string>, input: string, later: string)
    requires ValidLimits(server.limits) && AllAcceptable(server, requests)
    requires input + later == Flatten(requests)
    ensures var f := RequestSize(input, server.limits);
            if requests != [] && |input| >= |requests[0]|
            then f == Framed(|requests[0]|) && input[..|requests[0]|] == requests[0]
                 && input[|requests[0]|..] + later == Flatten(requests[1..])
            else f == Incomplete
  {
    hide RequestSize, ParseRequest;
    if requests == [] {
      assert input == "";
      EmptyIsIncomplete(server.limits);
    } else {
      var q, rest := requests[0], Flatten(requests[1..]);
      assert Acceptable(server, q);
      assert input + later == q + rest;
      if |input| >= |q| {
        assert input[..|q|] == (input + later)[..|q|] == q;
        var more := input[|q|..];
        assert input == q + more;
        FramingIsStable(q, more, server.limits);
        assert more + later == (input + later)[|q|..] == rest;
      } else {
        assert input == (q + rest)[..|input|] == q[..|input|];
        PrefixIsIncomplete(q, |input|, server.limits);
      }
    }
  }

  lemma EmptyIsIncomplete(o: Limits)
    ensures RequestSize("", o) == Incomplete
  {
  }

  // ----- the invariant -----

  predicate Settled(r: Reply) {
    r.streaming ==> r.done
  }

  /** At most one of: a handler running, a chunk being produced, bytes waiting to be written; and
      while a body streams, one of the last two. */
  ghost predicate OneActivity(c: Conn) {
    && (c.pending.Some? ==> c.output == "" && !c.stream && !c.pendingStream && !c.terminalQueued)
    && (c.pendingStream ==> c.output == "" && c.stream)
    && (c.stream && !c.closing ==> c.pendingStream || c.output != "")
    && (c.terminalQueued ==> c.output != "" && !c.stream)
    && (c.closeAfterWrite && !c.closing ==> c.output != "" || c.stream)
    && (c.output == "" ==> c.offset == 0)
  }

  /** Exactly the dispatched requests are answered, the one in progress excepted, and what was
      written is those answers, in order, up to what still waits in the output. */
  ghost predicate Answers(c: Conn) {
    && |c.replies| + (if c.pending.Some? then 1 else 0) == |c.dispatched|
    && (forall k :: 0 <= k < |c.replies| - 1 ==> Settled(c.replies[k]))
    && (c.replies != [] && !Settled(c.replies[|c.replies| - 1]) <==> c.stream)
    && c.offset <= |c.output|
    && c.sent + c.output[c.offset..] == Wire(c.replies)
  }

  /** The bytes received are the dispatched requests followed by the input buffer. */
  ghost predicate Received(server: Server, requests: seq<string>, c: Conn) {
    && |c.dispatched| <= |requests| && c.dispatched == requests[..|c.dispatched|]
    && (!c.hungUp ==> c.input + c.unread == Flatten(requests[|c.dispatched|..]))
    && (c.hungUp ==> c.closing || (c.output != "" && c.closeAfterWrite && c.pending.None? && !c.stream))
  }

  /** An idle connection has no whole request left to serve. */
  ghost predicate NothingForgotten(server: Server, c: Conn) {
    !Busy(c) && !c.closing ==> RequestSize(c.input, server.limits) == Incomplete
  }

  ghost predicate Inv(server: Server, requests: seq<string>, c: Conn) {
    OneActivity(c) && Answers(c) && Received(server, requests, c)
  }

  // ----- answers -----

  lemma WireAppend(replies: seq<Reply>, r: Reply)
    ensures Wire(replies + [r]) == Wire(replies) + Bytes(r)
  {
    assert (replies + [r])[..|replies|] == replies;
  }

  lemma AnswerInv(server: Server, requests: seq<string>, c: Conn, text: string, close: bool)
    requires Inv(server, requests, c) && c.pending.Some? && text != "" && !c.hungUp
    ensures Inv(server, requests, Answered(c, text, close))
  {
    WireAppend(c.replies, Reply(text, false, [], true, close));
  }

  lemma HungUpInv(server: Server, requests: seq<string>, c: Conn, text: string)
    requires Inv(server, requests, c) && c.pending.Some? && text != ""
    ensures Inv(server, requests, HungUp(c, text))
  {
    WireAppend(c.replies, Reply(text, false, [], true, true));
  }

  lemma StreamStartInv(server: Server, requests: seq<string>, c: Conn, head: string, close: bool)
    requires Inv(server, requests, c) && c.pending.Some? && head != "" && !c.hungUp
    ensures Inv(server, requests, StreamStarted(c, head, close))
  {
    WireAppend(c.replies, Reply(head, true, [], false, close));
  }

  lemma HandlerInv(server: Server, requests: seq<string>, c: Conn, answer: Answer)
    requires Sound(server) && Inv(server, requests, c) && !c.closing
    ensures Inv(server, requests, CompleteHandler(server, c, answer))
    ensures NothingForgotten(server, c) ==> NothingForgotten(server, CompleteHandler(server, c, answer))
  {
    if c.pending.Some? {
      assert !c.hungUp;
      AnswerBusy(server, c, answer);
      hide Inv, NothingForgotten, Answered, StreamStarted, HungUp;
      var p := c.pending.value;
      var keep := !answer.Failure? && p.keepAlive && !c.closeAfterWrite;
      match answer
      case Refusal(status) => HungUpInv(server, requests, c, server.errorPage(status));
      case Failure => AnswerInv(server, requests, c, server.render(INTERNAL_ERROR, p.omitBody, keep), !keep);
      case Whole(r) => AnswerInv(server, requests, c, server.render(r, p.omitBody, keep), !keep);
      case Streaming(r) =>
        var head := server.renderHead(r, p.omitBody, keep);
        if p.omitBody {
          AnswerInv(server, requests, c, head, !keep);
        } else {
          StreamStartInv(server, requests, c, head, !keep);
        }
    }
  }

  /** An answer has to be written before anything else. */
  lemma AnswerBusy(server: Server, c: Conn, answer: Answer)
    requires Sound(server) && !c.closing && c.pending.Some?
    ensures NothingForgotten(server, CompleteHandler(server, c, answer))
  {
    assert CompleteHandler(server, c, answer).output != "";
    hide CompleteHandler, RequestSize;
  }

  /** The last answer grows by exactly the bytes queued. */
  lemma GrowInv(server: Server, requests: seq<string>, c: Conn, d: Conn, r: Reply, more: string)
    requires Inv(server, requests, c) && c.pendingStream
    requires r.streaming && Bytes(r) == Bytes(c.replies[|c.replies| - 1]) + more
    requires d == c.(pendingStream := d.pendingStream, stream := d.stream, terminalQueued := d.terminalQueued,
                     output := more, offset := 0, replies := c.replies[..|c.replies| - 1] + [r])
    requires OneActivity(d) && d.stream == !r.done && !d.hungUp
    ensures Inv(server, requests, d)
  {
    var n := |c.replies| - 1;
    WireAppend(c.replies[..n], r);
    assert c.sent + "" == c.sent;
  }

  lemma StreamEndInv(server: Server, requests: seq<string>, c: Conn)
    requires Inv(server, requests, c) && !c.closing && c.pendingStream
    ensures Inv(server, requests, CompleteStream(server, c, End))
  {
    var last := c.replies[|c.replies| - 1];
    GrowInv(server, requests, c, CompleteStream(server, c, End), last.(done := true), CHUNK_END);
  }

  lemma BytesGrow(r: Reply, chunk: string)
    requires r.streaming && !r.done
    ensures Bytes(r.(chunks := r.chunks + [chunk])) == Bytes(r) + SerializeChunk(chunk)
    ensures SerializeChunk(chunk) == "" <==> chunk == ""
  {
    ChunkShows(chunk);
    EncodeAppend(r.chunks, chunk);
    hide Encode, SerializeChunk;
    assert r.head + (Encode(r.chunks) + SerializeChunk(chunk)) == (r.head + Encode(r.chunks)) + SerializeChunk(chunk);
    assert Encode(r.chunks) + "" == Encode(r.chunks);
    assert Encode(r.chunks + [chunk]) + "" == Encode(r.chunks + [chunk]);
  }

  lemma ChunkShows(chunk: string)
    ensures SerializeChunk(chunk) == "" <==> chunk == ""
  {
  }

  lemma StreamDataInv(server: Server, requests: seq<string>, c: Conn, chunk: string)
    requires Inv(server, requests, c) && !c.closing && c.pendingStream && |chunk| <= server.maxChunk
    ensures Inv(server, requests, CompleteStream(server, c, Data(chunk)))
  {
    hide Wire, Bytes, SerializeChunk;
    var last := c.replies[|c.replies| - 1];
    BytesGrow(last, chunk);
    GrowInv(server, requests, c, CompleteStream(server, c, Data(chunk)),
            last.(chunks := last.chunks + [chunk]), SerializeChunk(chunk));
  }

  lemma StreamInv(server: Server, requests: seq<string>, c: Conn, produced: Produced)
    requires Inv(server, requests, c) && !c.closing
    ensures Inv(server, requests, CompleteStream(server, c, produced))
    ensures NothingForgotten(server, c) ==> NothingForgotten(server, CompleteStream(server, c, produced))
  {
    hide Wire, Bytes, SerializeChunk, RequestSize;
    if c.pendingStream {
      match produced
      case Broke =>
      case End => StreamEndInv(server, requests, c);
      case Data(chunk) =>
        if |chunk| <= server.maxChunk {
          StreamDataInv(server, requests, c, chunk);
        }
    }
  }

  // ----- taking requests -----

  lemma TakeInv(server: Server, requests: seq<string>, c: Conn, p: Pending)
    requires ValidLimits(server.limits) && AllAcceptable(server, requests)
    requires Inv(server, requests, c) && !Busy(c) && !c.closing && RequestSize(c.input, server.limits).Framed?
    ensures var n := RequestSize(c.input, server.limits).size;
            && ParseRequest(c.input[..n]).Good?
            && Inv(server, requests, Taken(c, n, c.served + 1).(pending := Some(p)))
  {
    hide RequestSize, ParseRequest;
    var k := |c.dispatched|;
    RestAcceptable(server, requests, k);
    FramesNext(server, requests[k..], c.input, c.unread);
    var raw := requests[k];
    assert requests[k..][0] == raw && requests[k..][1..] == requests[k + 1..];
    assert Acceptable(server, raw);
    assert requests[..k + 1] == c.dispatched + [raw];
  }

  lemma PrepareInv(server: Server, requests: seq<string>, c: Conn, overloaded: bool)
    requires Sound(server) && AllAcceptable(server, requests) && Inv(server, requests, c) && !c.closing
    ensures var (d, raised) := PrepareResponse(server, c, overloaded);
            raised.None? && Inv(server, requests, d) && NothingForgotten(server, d)
  {
    hide RequestSize, ParseRequest, AllAcceptable;
    if !Busy(c) {
      var k := |c.dispatched|;
      RestAcceptable(server, requests, k);
      FramesNext(server, requests[k..], c.input, c.unread);
      var f := RequestSize(c.input, server.limits);
      if f.Framed? {
        var p := PrepareResponse(server, c, false).0.pending;
        TakeInv(server, requests, c, Pending(false, false));
        var taken := Taken(c, f.size, c.served + 1);
        if overloaded {
          var head := ParseRequest(c.input[..f.size]).value.verb.Head?;
          HungUpInv(server, requests, taken.(pending := Some(Pending(false, false))), server.render(OVERLOADED, head, false));
        } else {
          TakeInv(server, requests, c, p.value);
        }
      }
    }
  }

  // ----- reading -----

  /** Reading the beginning of a good request stream is never refused, wherever the reads split. */
  lemma {:induction false} ReceiveAccepts(server: Server, requests: seq<string>, c: Conn, counts: seq<nat>, closed: bool)
    requires ValidLimits(server.limits) && AllAcceptable(server, requests)
    requires c.input + c.unread == Flatten(requests)
    ensures !Receive(server, c, counts, closed).1.Raised?
    decreases |counts|
  {
    hide RequestSize, AllAcceptable, Flatten;
    if counts != [] && c.unread != "" {
      var d := Deliver(c, Delivered(c, counts[0]));
      FramesNext(server, requests, d.input, d.unread);
      hide Deliver, Delivered;
      ReceiveAccepts(server, requests, d, counts[1..], closed);
    }
  }

  lemma ReceivedInv(server: Server, requests: seq<string>, c: Conn, d: Conn)
    requires Inv(server, requests, c) && d == c.(input := d.input, unread := d.unread)
    requires d.input + d.unread == c.input + c.unread
    ensures Inv(server, requests, d)
  {
  }

  lemma ReadInv(server: Server, requests: seq<string>, c: Conn, counts: seq<nat>, closed: bool, overloaded: bool)
    requires Sound(server) && AllAcceptable(server, requests) && Inv(server, requests, c)
    requires !c.closing && c.output == ""
    ensures Inv(server, requests, ReadReady(server, c, counts, closed, overloaded))
    ensures NothingForgotten(server, ReadReady(server, c, counts, closed, overloaded))
  {
    hide Receive, PrepareResponse, AllAcceptable, RequestSize, Answers, Wire;
    RestAcceptable(server, requests, |c.dispatched|);
    ReceiveAccepts(server, requests[|c.dispatched|..], c, counts, closed);
    var (d, end) := Receive(server, c, counts, closed);
    ReceivedInv(server, requests, c, d);
    AfterReadInv(server, requests, d, end, overloaded);
  }

  lemma AfterReadInv(server: Server, requests: seq<string>, d: Conn, end: ReadEnd, overloaded: bool)
    requires Sound(server) && AllAcceptable(server, requests) && Inv(server, requests, d) && !d.closing
    ensures var f := PrepareResponse(server, d, overloaded);
            f.1.None? && Inv(server, requests, f.0) && NothingForgotten(server, f.0)
    ensures Inv(server, requests, Close(d)) && NothingForgotten(server, Close(d))
  {
    CloseInv(server, requests, d);
    hide Inv, NothingForgotten, PrepareResponse, AllAcceptable, Sound, Close;
    PrepareInv(server, requests, d, overloaded);
  }

  lemma CloseInv(server: Server, requests: seq<string>, d: Conn)
    requires Inv(server, requests, d)
    ensures Inv(server, requests, Close(d)) && NothingForgotten(server, Close(d))
  {
    hide Wire, RequestSize, Flatten, Settled;
  }

  lemma RestAcceptable(server: Server, requests: seq<string>, k: nat)
    requires AllAcceptable(server, requests) && k <= |requests|
    ensures AllAcceptable(server, requests[k..])
  {
  }

  // ----- writing -----

  lemma SendInv(server: Server, requests: seq<string>, c: Conn, counts: seq<nat>)
    requires Inv(server, requests, c) && c.output != ""
    ensures Inv(server, requests, Send(c, counts))
  {
    hide Wire, Sum, Flatten, Settled;
    var d := Send(c, counts);
    SentMoves(c.sent, c.output, c.offset, d.offset);
  }

  lemma SentMoves(sent: string, output: string, from: nat, to: nat)
    requires from <= to <= |output|
    ensures (sent + output[from..to]) + output[to..] == sent + output[from..]
  {
    assert output[from..to] + output[to..] == output[from..];
  }

  lemma FlushedInv(server: Server, requests: seq<string>, c: Conn)
    requires Inv(server, requests, c) && !c.closing && c.output != "" && c.offset == |c.output|
    requires !c.stream && !c.pendingStream
    ensures var e := c.(output := "", offset := 0, terminalQueued := false, closeAfterWrite := false);
            && Inv(server, requests, Close(e))
            && (!c.closeAfterWrite ==> Inv(server, requests, e))
  {
    hide Wire;
    assert c.output[c.offset..] == "";
  }

  lemma FinishInv(server: Server, requests: seq<string>, c: Conn, overloaded: bool)
    requires Sound(server) && AllAcceptable(server, requests) && Inv(server, requests, c)
    requires !c.closing && c.output != "" && c.offset == |c.output|
    ensures Inv(server, requests, Finish(server, c, overloaded))
    ensures NothingForgotten(server, Finish(server, c, overloaded))
  {
    hide Wire, PrepareResponse, AllAcceptable, RequestSize;
    if c.stream || c.pendingStream {
      assert c.output[c.offset..] == "";
    } else {
      FlushedInv(server, requests, c);
      if !c.closeAfterWrite {
        var e := c.(output := "", offset := 0, terminalQueued := false, closeAfterWrite := false);
        EmptyIsIncomplete(server.limits);
        PrepareInv(server, requests, e, overloaded);
      }
    }
  }

  lemma WriteInv(server: Server, requests: seq<string>, c: Conn, counts: seq<nat>, broke: bool, overloaded: bool)
    requires Sound(server) && AllAcceptable(server, requests) && Inv(server, requests, c)
    requires !c.closing && c.output != ""
    ensures Inv(server, requests, WriteReady(server, c, counts, broke, overloaded))
    ensures NothingForgotten(server, WriteReady(server, c, counts, broke, overloaded))
  {
    hide Wire, Finish, AllAcceptable, RequestSize;
    SendInv(server, requests, c, counts);
    var d := Send(c, counts);
    if d.offset == |d.output| {
      FinishInv(server, requests, d, overloaded);
    }
  }

  // ----- whole runs -----

  lemma StepInv(server: Server, requests: seq<string>, c: Conn, e: Event)
    requires Sound(server) && AllAcceptable(server, requests) && Inv(server, requests, c) && NothingForgotten(server, c)
    ensures Inv(server, requests, Step(server, c, e)) && NothingForgotten(server, Step(server, c, e))
  {
    hide Wire, AllAcceptable, RequestSize, WriteReady, ReadReady, CompleteHandler, CompleteStream;
    if !c.closing {
      match e
      case Readable(counts, closed, overloaded) =>
        if c.output == "" { ReadInv(server, requests, c, counts, closed, overloaded); }
      case Writable(counts, broke, overloaded) =>
        if c.output != "" { WriteInv(server, requests, c, counts, broke, overloaded); }
      case HandlerDone(answer) => HandlerInv(server, requests, c, answer);
      case ChunkDone(produced) => StreamInv(server, requests, c, produced);
      case SocketError =>
    }
  }

  lemma {:induction false} RunInv(server: Server, requests: seq<string>, c: Conn, events: seq<Event>)
    requires Sound(server) && AllAcceptable(server, requests) && Inv(server, requests, c) && NothingForgotten(server, c)
    ensures Inv(server, requests, Run(server, c, events)) && NothingForgotten(server, Run(server, c, events))
    decreases |events|
  {
    hide NothingForgotten, Step, Sound, AllAcceptable, Received, OneActivity;
    if events != [] {
      StepInv(server, requests, c, events[0]);
      RunInv(server, requests, Step(server, c, events[0]), events[1..]);
    }
  }

  lemma FreshInv(server: Server, requests: seq<string>)
    requires Sound(server)
    ensures Inv(server, requests, Fresh(Flatten(requests))) && NothingForgotten(server, Fresh(Flatten(requests)))
  {
    assert requests[0..] == requests;
    assert "" + Flatten(requests) == Flatten(requests);
    EmptyIsIncomplete(server.limits);
  }

  /** SEGMENTATION INDEPENDENCE.  Whatever good requests the peer sends and however reads, partial
      writes, handlers and body producers interleave: the slices handed to parse_request are, in
      order, the first requests sent; one of three activities at most is under way; and the bytes
      written are a beginning of the answers to those requests, whole and in that order. */
  lemma Pipelining(server: Server, requests: seq<string>, events: seq<Event>)
    requires Sound(server) && AllAcceptable(server, requests)
    ensures var c := Run(server, Fresh(Flatten(requests)), events);
            && c.dispatched <= requests
            && OneActivity(c)
            && |c.dispatched| - 1 <= |c.replies| <= |c.dispatched|
            && c.sent <= Wire(c.replies)
            && (forall k :: 0 <= k < |c.replies| - 1 ==> Settled(c.replies[k]))
  {
    FreshInv(server, requests);
    RunInv(server, requests, Fresh(Flatten(requests)), events);
  }
}
