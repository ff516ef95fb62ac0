/** What the answers are: reply k is rendered for request k from what its handler returned, and a
    streaming reply carries exactly the chunks its producer was asked for, in every run. */
module Http1Answers {
  import opened Text
  import opened Framing
  import opened RequestParser
  import opened Chunked
  import opened Http1
  import opened Http1Order

  predicate IsHead(raw: string) {
    ParseRequest(raw).Good? && ParseRequest(raw).value.verb.Head?
  }

  // ----- what the events say -----

  /** The chunk this event gives to the k-th reply: its producer was asked, and answers with data. */
  function GivenBy(c: Conn, e: Event, k: nat): seq<string> {
    if e.ChunkDone? && e.produced.Data? && !c.closing && c.pendingStream && |c.replies| == k + 1
    then [e.produced.chunk] else []
  }

  /** All chunks produced for the k-th reply. */
  function Given(server: Server, c: Conn, events: seq<Event>, k: nat): seq<string>
    requires c.offset <= |c.output|
    decreases |events|
  {
    if events == [] then [] else GivenBy(c, events[0], k) + Given(server, Step(server, c, events[0]), events[1..], k)
  }

  /** The answer of the handler whose turn is the k-th reply, when this event reports it. */
  function AnswerBy(c: Conn, e: Event, k: nat): Option<Answer> {
    if e.HandlerDone? && !c.closing && c.pending.Some? && |c.replies| == k then Some(e.answer) else None
  }

  /** None stands for a request that was refused because the server was overloaded. */
  function AnswerGiven(server: Server, c: Conn, events: seq<Event>, k: nat): Option<Answer>
    requires c.offset <= |c.output|
    decreases |events|
  {
    if events == [] then None
    else if AnswerBy(c, events[0], k).Some? then AnswerBy(c, events[0], k)
    else AnswerGiven(server, Step(server, c, events[0]), events[1..], k)
  }

  /** The connection ends with the answer to request k: its handler failed, or the request itself does not
      let it be kept alive. */
  predicate Closes(server: Server, raw: string, k: nat, answer: Option<Answer>) {
    answer.None? || answer.value.Failure? || answer.value.Refusal? || !server.keepAlive(raw, k + 1)
  }

  /** The reply to request k: rendered from its handler's answer, without a body if and only if the request
      is HEAD, and announcing the end of the connection if and only if it is the end. */
  predicate RenderedFor(server: Server, raw: string, k: nat, answer: Option<Answer>, r: Reply) {
    var omit, keep := IsHead(raw), !Closes(server, raw, k, answer);
    && r.closes == !keep
    && match answer
       case None => !r.streaming && r.head == server.render(OVERLOADED, omit, false)
       case Some(Refusal(status)) => !r.streaming && r.head == server.errorPage(status)
       case Some(Failure) => !r.streaming && r.head == server.render(INTERNAL_ERROR, omit, false)
       case Some(Whole(response)) => !r.streaming && r.head == server.render(response, omit, keep)
       case Some(Streaming(response)) => r.streaming == !omit && r.head == server.renderHead(response, omit, keep)
  }

  // ----- reading and writing -----

  predicate SameTurn(c: Conn, d: Conn) {
    d.replies == c.replies && d.dispatched == c.dispatched && d.pending == c.pending && d.served == c.served
  }

  /** One more request was taken: a handler runs for it, or it was refused for overload. */
  predicate NextTurn(server: Server, c: Conn, d: Conn) {
    && c.pending.None? && |d.dispatched| == |c.dispatched| + 1 && d.served == c.served + 1
    && var raw := d.dispatched[|c.dispatched|];
       || (d.replies == c.replies && d.pending == Some(Pending(IsHead(raw), server.keepAlive(raw, d.served))))
       || (d.pending.None? && d.replies == c.replies + [Reply(server.render(OVERLOADED, IsHead(raw), false), false, [], true, true)])
  }

  predicate Turned(server: Server, c: Conn, d: Conn) {
    SameTurn(c, d) || NextTurn(server, c, d)
  }

  lemma PrepareTurns(server: Server, c: Conn, overloaded: bool)
    requires PrepareResponse(server, c, overloaded).1.None?
    ensures Turned(server, c, PrepareResponse(server, c, overloaded).0)
  {
    hide RequestSize, ParseRequest;
  }

  lemma ReadTurns(server: Server, requests: seq<string>, c: Conn, counts: seq<nat>, closed: bool, overloaded: bool)
    requires Sound(server) && AllAcceptable(server, requests) && Inv(server, requests, c)
    requires !c.closing && c.output == ""
    ensures Turned(server, c, ReadReady(server, c, counts, closed, overloaded))
  {
    hide Receive, PrepareResponse, AllAcceptable, RequestSize, Answers, Wire, NextTurn, Sound;
    RestAcceptable(server, requests, |c.dispatched|);
    assert Sound(server) ==> ValidLimits(server.limits) by { SoundLimits(server); }
    ReceiveAccepts(server, requests[|c.dispatched|..], c, counts, closed);
    var (d, end) := Receive(server, c, counts, closed);
    ReceivedInv(server, requests, c, d);
    PrepareInv(server, requests, d, overloaded);
    PrepareTurns(server, d, overloaded);
    SameStart(server, c, d, PrepareResponse(server, d, overloaded).0);
  }

  lemma SoundLimits(server: Server)
    ensures Sound(server) ==> ValidLimits(server.limits)
  {
  }

  lemma SameStart(server: Server, c: Conn, d: Conn, e: Conn)
    requires SameTurn(c, d) && Turned(server, d, e)
    ensures Turned(server, c, e)
  {
  }

  lemma FinishTurns(server: Server, requests: seq<string>, c: Conn, overloaded: bool)
    requires Sound(server) && AllAcceptable(server, requests) && Inv(server, requests, c)
    requires !c.closing && c.output != "" && c.offset == |c.output|
    ensures Turned(server, c, Finish(server, c, overloaded))
  {
    hide Wire, PrepareResponse, AllAcceptable, RequestSize, NextTurn, Sound;
    if !c.stream && !c.pendingStream && !c.closeAfterWrite {
      var e := c.(output := "", offset := 0, terminalQueued := false, closeAfterWrite := false);
      FlushedInv(server, requests, c);
      PrepareInv(server, requests, e, overloaded);
      PrepareTurns(server, e, overloaded);
      SameStart(server, c, e, PrepareResponse(server, e, overloaded).0);
    }
  }

  lemma WriteTurns(server: Server, requests: seq<string>, c: Conn, counts: seq<nat>, broke: bool, overloaded: bool)
    requires Sound(server) && AllAcceptable(server, requests) && Inv(server, requests, c)
    requires !c.closing && c.output != ""
    ensures Turned(server, c, WriteReady(server, c, counts, broke, overloaded))
  {
    assert c.offset <= |c.output|;
    hide Wire, Finish, AllAcceptable, RequestSize, NextTurn, Sound, Answers, Received, OneActivity;
    SendInv(server, requests, c, counts);
    var d := Send(c, counts);
    if d.offset == |d.output| {
      FinishTurns(server, requests, d, overloaded);
      SameStart(server, c, d, Finish(server, d, overloaded));
    }
  }

  lemma QuietTurns(server: Server, requests: seq<string>, c: Conn, e: Event)
    requires Sound(server) && AllAcceptable(server, requests) && Inv(server, requests, c)
    requires e.Readable? || e.Writable? || e.SocketError?
    ensures Turned(server, c, Step(server, c, e))
  {
    hide Wire, AllAcceptable, RequestSize, WriteReady, ReadReady, NextTurn, Sound, Inv;
    if !c.closing {
      match e
      case Readable(counts, closed, overloaded) =>
        if c.output == "" { ReadTurns(server, requests, c, counts, closed, overloaded); }
      case Writable(counts, broke, overloaded) =>
        if c.output != "" { WriteTurns(server, requests, c, counts, broke, overloaded); }
      case SocketError =>
    }
  }

  // ----- every step -----

  /** The running handler's request decides whether the body is omitted and the connection kept alive. */
  predicate PendingKnows(server: Server, c: Conn) {
    && c.served == |c.dispatched|
    && (c.pending.Some? ==>
          && c.dispatched != []
          && var raw := c.dispatched[|c.dispatched| - 1];
             c.pending.value == Pending(IsHead(raw), server.keepAlive(raw, |c.dispatched|)))
  }

  /** The same reply, perhaps with more of its body. */
  predicate SameReply(r: Reply, q: Reply) {
    q.head == r.head && q.streaming == r.streaming && q.closes == r.closes
  }

  /** Replies are added one at a time and keep their head for good. */
  predicate HeadsKept(c: Conn, d: Conn) {
    && |c.replies| <= |d.replies| <= |c.replies| + 1
    && forall k :: 0 <= k < |c.replies| ==> SameReply(c.replies[k], d.replies[k])
  }

  lemma StreamHeads(server: Server, c: Conn, produced: Produced)
    ensures HeadsKept(c, CompleteStream(server, c, produced)) && |CompleteStream(server, c, produced).replies| == |c.replies|
    ensures var d := CompleteStream(server, c, produced);
            d.pending == c.pending && d.dispatched == c.dispatched && d.served == c.served
  {
    hide SerializeChunk;
  }

  lemma HandlerHeads(server: Server, c: Conn, answer: Answer)
    ensures HeadsKept(c, CompleteHandler(server, c, answer))
    ensures CompleteHandler(server, c, answer).dispatched == c.dispatched && CompleteHandler(server, c, answer).served == c.served
    ensures !c.closing ==> CompleteHandler(server, c, answer).pending.None?
  {
    HandlerAdds(server, c, answer);
    var d := CompleteHandler(server, c, answer);
    hide CompleteHandler;
    if d != c {
      assert forall k :: 0 <= k < |c.replies| ==> d.replies[k] == c.replies[k];
    }
  }

  lemma HandlerAdds(server: Server, c: Conn, answer: Answer)
    ensures var d := CompleteHandler(server, c, answer);
            && d.dispatched == c.dispatched && d.served == c.served
            && (c.closing || c.pending.None? ==> d == c)
            && (!c.closing && c.pending.Some? ==>
                  d.pending.None? && |d.replies| == |c.replies| + 1 && d.replies[..|c.replies|] == c.replies)
  {
    if !c.closing && c.pending.Some? {
      var d := CompleteHandler(server, c, answer);
      var r := if answer.Refusal? then Reply(server.errorPage(answer.status), false, [], true, true) else d.replies[|c.replies|];
      assert d.replies == c.replies + [r];
      hide CompleteHandler;
      assert (c.replies + [r])[..|c.replies|] == c.replies;
    }
  }

  lemma TurnedHeads(server: Server, c: Conn, d: Conn)
    requires Turned(server, c, d) && PendingKnows(server, c)
    ensures HeadsKept(c, d) && PendingKnows(server, d)
  {
    hide IsHead;
  }

  lemma StepHeads(server: Server, requests: seq<string>, c: Conn, e: Event)
    requires Sound(server) && AllAcceptable(server, requests) && Inv(server, requests, c) && PendingKnows(server, c)
    ensures c.offset <= |c.output| && HeadsKept(c, Step(server, c, e)) && PendingKnows(server, Step(server, c, e))
  {
    assert c.offset <= |c.output|;
    hide Inv, AllAcceptable, Sound, ReadReady, WriteReady, CompleteHandler, CompleteStream, IsHead;
    if !c.closing {
      match e
      case HandlerDone(answer) =>
        HandlerHeads(server, c, answer);
      case ChunkDone(produced) =>
        StreamHeads(server, c, produced);
      case _ =>
        QuietTurns(server, requests, c, e);
        TurnedHeads(server, c, Step(server, c, e));
    }
  }

  lemma HandlerRenders(server: Server, c: Conn, answer: Answer)
    requires c.pending.Some? && !c.closing && !c.closeAfterWrite && PendingKnows(server, c)
    ensures var d, k := CompleteHandler(server, c, answer), |c.dispatched| - 1;
            && |d.replies| == |c.replies| + 1
            && RenderedFor(server, c.dispatched[k], k, Some(answer), d.replies[|c.replies|])
  {
    hide IsHead;
    var p, raw := c.pending.value, c.dispatched[|c.dispatched| - 1];
    assert p == Pending(IsHead(raw), server.keepAlive(raw, |c.dispatched|));
    hide PendingKnows;
    var d := CompleteHandler(server, c, answer);
    var r := d.replies[|c.replies|];
    match answer
    case Refusal(status) => assert r == Reply(server.errorPage(status), false, [], true, true);
    case Failure => assert r == Reply(server.render(INTERNAL_ERROR, p.omitBody, false), false, [], true, true);
    case Whole(a) => assert r == Reply(server.render(a, p.omitBody, p.keepAlive), false, [], true, !p.keepAlive);
    case Streaming(a) =>
      assert r == Reply(server.renderHead(a, p.omitBody, p.keepAlive), !p.omitBody, [], p.omitBody, !p.keepAlive);
  }

  /** A reply added without a handler refuses the next request for overload. */
  lemma TurnRenders(server: Server, requests: seq<string>, c: Conn, d: Conn)
    requires Turned(server, c, d) && |d.replies| > |c.replies|
    requires Answers(c) && |d.dispatched| <= |requests| && d.dispatched == requests[..|d.dispatched|]
    ensures var k := |c.replies|;
            k < |requests| && RenderedFor(server, requests[k], k, None, d.replies[k])
  {
    hide IsHead, Wire, Settled;
    var k := |c.replies|;
    assert d.dispatched[k] == requests[k];
  }

  /** The running handler's request is the next one to be answered. */
  lemma HandlerTurn(requests: seq<string>, c: Conn)
    requires Answers(c) && c.pending.Some?
    requires |c.dispatched| <= |requests| && c.dispatched == requests[..|c.dispatched|]
    ensures |c.dispatched| == |c.replies| + 1 && |c.replies| < |requests| && c.dispatched[|c.replies|] == requests[|c.replies|]
  {
    hide Wire, Settled;
  }

  /** A reply added by a step is the next request's. */
  lemma StepRenders(server: Server, requests: seq<string>, c: Conn, e: Event)
    requires Sound(server) && AllAcceptable(server, requests) && Inv(server, requests, c) && PendingKnows(server, c)
    requires Inv(server, requests, Step(server, c, e)) && |Step(server, c, e).replies| > |c.replies|
    ensures var k := |c.replies|;
            k < |requests| && RenderedFor(server, requests[k], k, AnswerBy(c, e, k), Step(server, c, e).replies[k])
  {
    assert c.offset <= |c.output|;
    assert c.pending.Some? && !c.closing ==> !c.closeAfterWrite;
    hide AllAcceptable, Sound, ReadReady, WriteReady, CompleteHandler, CompleteStream, PendingKnows, OneActivity, Answers,
         RenderedFor, Turned;
    if e.HandlerDone? {
      HandlerIdle(server, c, e.answer);
      HandlerTurn(requests, c);
      HandlerRenders(server, c, e.answer);
    } else if e.ChunkDone? {
      StreamHeads(server, c, e.produced);
    } else {
      QuietTurns(server, requests, c, e);
      TurnRenders(server, requests, c, Step(server, c, e));
    }
  }

  lemma HandlerIdle(server: Server, c: Conn, answer: Answer)
    ensures c.closing || c.pending.None? ==> CompleteHandler(server, c, answer) == c
  {
  }

  // ----- whole runs -----

  lemma {:induction false} RunHeads(server: Server, requests: seq<string>, c: Conn, events: seq<Event>, k: nat)
    requires Sound(server) && AllAcceptable(server, requests) && Inv(server, requests, c) && NothingForgotten(server, c)
    requires PendingKnows(server, c) && k < |c.replies|
    ensures var d := Run(server, c, events);
            k < |d.replies| && SameReply(c.replies[k], d.replies[k])
    ensures AnswerGiven(server, c, events, k).None?
    decreases |events|
  {
    if events != [] {
      StepHeads(server, requests, c, events[0]);
      hide AllAcceptable, Sound, Inv, NothingForgotten, Step, PendingKnows;
      StepInv(server, requests, c, events[0]);
      RunHeads(server, requests, Step(server, c, events[0]), events[1..], k);
    }
  }

  lemma {:induction false} RunRenders(server: Server, requests: seq<string>, c: Conn, events: seq<Event>, k: nat)
    requires Sound(server) && AllAcceptable(server, requests) && Inv(server, requests, c) && NothingForgotten(server, c)
    requires PendingKnows(server, c) && |c.replies| <= k < |Run(server, c, events).replies|
    ensures k < |requests| && RenderedFor(server, requests[k], k, AnswerGiven(server, c, events, k), Run(server, c, events).replies[k])
    decreases |events|
  {
    hide AllAcceptable, Sound, Inv, NothingForgotten, Step, PendingKnows, RenderedFor;
    StepHeads(server, requests, c, events[0]);
    StepInv(server, requests, c, events[0]);
    var d := Step(server, c, events[0]);
    if |d.replies| <= k {
      assert AnswerBy(c, events[0], k).None? by { NotYet(server, c, events[0], k); }
      RunRenders(server, requests, d, events[1..], k);
    } else {
      StepRenders(server, requests, c, events[0]);
      RunHeads(server, requests, d, events[1..], k);
      SameHead(server, requests[k], k, AnswerBy(c, events[0], k), d.replies[k], Run(server, d, events[1..]).replies[k]);
    }
  }

  /** A handler's answer adds its reply at once. */
  lemma NotYet(server: Server, c: Conn, e: Event, k: nat)
    requires c.offset <= |c.output| && |Step(server, c, e).replies| <= k
    ensures AnswerBy(c, e, k).None?
  {
    hide ReadReady, WriteReady, CompleteStream;
  }

  lemma SameHead(server: Server, raw: string, k: nat, answer: Option<Answer>, r: Reply, q: Reply)
    requires RenderedFor(server, raw, k, answer, r) && SameReply(r, q)
    ensures RenderedFor(server, raw, k, answer, q)
  {
    hide IsHead;
  }

  /** EACH REQUEST ITS ANSWER.  In every run, reply k is the rendering, for request k, of what the k-th
      handler answered, its body omitted if and only if that request is HEAD and the end of the
      connection announced if and only if the handler failed or the request does not keep it alive. */
  lemma RepliesAnswerRequests(server: Server, requests: seq<string>, events: seq<Event>, k: nat)
    requires Sound(server) && AllAcceptable(server, requests)
    requires k < |Run(server, Fresh(Flatten(requests)), events).replies|
    ensures k < |requests|
    ensures RenderedFor(server, requests[k], k, AnswerGiven(server, Fresh(Flatten(requests)), events, k),
                        Run(server, Fresh(Flatten(requests)), events).replies[k])
  {
    FreshInv(server, requests);
    hide Run, AnswerGiven, RenderedFor, Inv, NothingForgotten;
    RunRenders(server, requests, Fresh(Flatten(requests)), events, k);
  }

  // ----- streamed bodies -----

  /** The chunks recorded for the k-th reply so far. */
  function Recorded(c: Conn, k: nat): seq<string> {
    if k < |c.replies| then c.replies[k].chunks else []
  }

  /** The step recorded what it was given, or it closed the connection in the middle of that reply. */
  ghost predicate Records(c: Conn, e: Event, d: Conn, k: nat) {
    || Recorded(d, k) == Recorded(c, k) + GivenBy(c, e, k)
    || (d.closing && k < |d.replies| && !d.replies[k].done)
  }

  lemma StreamRecords(server: Server, requests: seq<string>, c: Conn, produced: Produced, k: nat)
    requires Inv(server, requests, c) && !c.closing
    ensures Records(c, ChunkDone(produced), CompleteStream(server, c, produced), k)
  {
    hide SerializeChunk, Wire, Received;
    assert Recorded(c, k) + [] == Recorded(c, k);
  }

  lemma HandlerRecords(server: Server, c: Conn, answer: Answer, k: nat)
    ensures Recorded(CompleteHandler(server, c, answer), k) == Recorded(c, k)
  {
  }

  lemma StepRecords(server: Server, requests: seq<string>, c: Conn, e: Event, k: nat)
    requires Sound(server) && AllAcceptable(server, requests) && Inv(server, requests, c)
    ensures c.offset <= |c.output| && Records(c, e, Step(server, c, e), k)
  {
    assert c.offset <= |c.output|;
    hide AllAcceptable, Sound, Inv, ReadReady, WriteReady, CompleteHandler, CompleteStream, IsHead, Records;
    if c.closing {
      assert Recorded(c, k) + [] == Recorded(c, k);
      SameRecords(c, e, c, k);
    } else {
      match e
      case HandlerDone(answer) =>
        HandlerRecords(server, c, answer, k);
        SameRecords(c, e, Step(server, c, e), k);
      case ChunkDone(produced) => StreamRecords(server, requests, c, produced, k);
      case _ =>
        QuietTurns(server, requests, c, e);
        SameRecords(c, e, Step(server, c, e), k);
    }
  }

  lemma SameRecords(c: Conn, e: Event, d: Conn, k: nat)
    requires GivenBy(c, e, k) == [] && Recorded(d, k) == Recorded(c, k)
    ensures Records(c, e, d, k)
  {
    assert Recorded(c, k) + [] == Recorded(c, k);
  }

  lemma {:induction false} ClosedStays(server: Server, c: Conn, events: seq<Event>)
    requires c.closing && c.offset <= |c.output|
    ensures Run(server, c, events) == c
    decreases |events|
  {
    if events != [] {
      assert Step(server, c, events[0]) == c;
      hide Step;
      ClosedStays(server, c, events[1..]);
    }
  }

  /** A finished reply holds exactly what its producer was asked for and gave. */
  lemma {:induction false} RunRecords(server: Server, requests: seq<string>, c: Conn, events: seq<Event>, k: nat)
    requires Sound(server) && AllAcceptable(server, requests) && Inv(server, requests, c) && NothingForgotten(server, c)
    requires k < |Run(server, c, events).replies| && Run(server, c, events).replies[k].done
    ensures Run(server, c, events).replies[k].chunks == Recorded(c, k) + Given(server, c, events, k)
    decreases |events|
  {
    hide AllAcceptable, Sound, Inv, NothingForgotten, Step, GivenBy;
    if events == [] {
      assert Recorded(c, k) + [] == Recorded(c, k);
    } else {
      StepRecords(server, requests, c, events[0], k);
      StepInv(server, requests, c, events[0]);
      var d, rest := Step(server, c, events[0]), events[1..];
      if d.closing && k < |d.replies| && !d.replies[k].done {
        ClosedStays(server, d, rest);
      }
      RunRecords(server, requests, d, rest, k);
      assert Recorded(c, k) + GivenBy(c, events[0], k) + Given(server, d, rest, k)
          == Recorded(c, k) + (GivenBy(c, events[0], k) + Given(server, d, rest, k));
    }
  }

  lemma {:induction false} WireSplit(replies: seq<Reply>, k: nat)
    requires k <= |replies|
    ensures Wire(replies) == Wire(replies[..k]) + Wire(replies[k..])
  {
    hide Bytes;
    if k == |replies| {
      assert replies[..k] == replies && replies[k..] == [];
      assert Wire([]) == "";
    } else {
      var n := |replies| - 1;
      var front := replies[..n];
      WireSplit(front, k);
      assert front[..k] == replies[..k];
      var tail := replies[k..];
      assert tail[..|tail| - 1] == front[k..] && tail[|tail| - 1] == replies[n];
    }
  }

  lemma Pieces(sent: string, before: string, head: string, body: string, after: string)
    requires sent <= before + (head + body) + after && |before| + |head| + |body| <= |sent|
    ensures var from, to := |before| + |head|, |before| + |head| + |body|;
            sent[..from] == before + head && sent[from..] == body + sent[to..] && sent[to..] <= after
  {
    var whole := before + (head + body);
    assert (whole + after)[..|sent|] == sent;
    assert sent[..|whole|] == whole;
    assert sent == whole + sent[|whole|..];
    assert whole == (before + head) + body;
  }

  /** Where a finished streaming reply lies in what was written. */
  lemma StreamOnWire(replies: seq<Reply>, sent: string, k: nat)
    requires k < |replies| && replies[k].streaming && replies[k].done
    requires sent <= Wire(replies) && |Wire(replies[..k + 1])| <= |sent|
    ensures var from, to := |Wire(replies[..k])| + |replies[k].head|, |Wire(replies[..k + 1])|;
            && from <= to
            && sent[..from] == Wire(replies[..k]) + replies[k].head
            && sent[from..] == Encode(replies[k].chunks) + CHUNK_END + sent[to..]
            && sent[to..] <= Wire(replies[k + 1..])
  {
    var r := replies[k];
    var upTo := replies[..k + 1];
    assert upTo[..k] == replies[..k] && upTo[k] == r;
    assert Wire(upTo) == Wire(replies[..k]) + Bytes(r);
    hide Wire;
    WireSplit(replies, k + 1);
    Pieces(sent, Wire(replies[..k]), r.head, Encode(r.chunks) + CHUNK_END, Wire(replies[k + 1..]));
  }

  /** The k-th reply of c is written, and what the peer decodes after its head is `chunks`, followed by the
      next answers. */
  ghost predicate Decodes(c: Conn, k: nat, chunks: seq<string>)
    requires k < |c.replies|
  {
    var from, to := |Wire(c.replies[..k])| + |c.replies[k].head|, |Wire(c.replies[..k + 1])|;
    && from <= to <= |c.sent|
    && c.sent[..from] == Wire(c.replies[..k]) + c.replies[k].head
    && Decode(c.sent[from..]) == Body(Flatten(chunks), c.sent[to..])
    && c.sent[to..] <= Wire(c.replies[k + 1..])
  }

  lemma WrittenStream(c: Conn, k: nat)
    requires k < |c.replies| && c.replies[k].streaming && c.replies[k].done
    requires c.sent <= Wire(c.replies) && |Wire(c.replies[..k + 1])| <= |c.sent|
    ensures Decodes(c, k, c.replies[k].chunks)
  {
    hide Wire, Encode, Decode, Flatten;
    StreamOnWire(c.replies, c.sent, k);
    StreamDecodes(c.replies[k].chunks, c.sent[|Wire(c.replies[..k + 1])|..]);
  }

  /** STREAMED BODIES.  In every run, once the k-th reply has finished streaming and is written, the peer that
      has read its head decodes from the bytes sent exactly the concatenation of the chunks the
      producer gave for it, empty ones included, and what follows are the next answers. */
  lemma StreamedBodies(server: Server, requests: seq<string>, events: seq<Event>, k: nat)
    requires Sound(server) && AllAcceptable(server, requests)
    requires var c := Run(server, Fresh(Flatten(requests)), events);
             && k < |c.replies| && c.replies[k].streaming && c.replies[k].done
             && |Wire(c.replies[..k + 1])| <= |c.sent|
    ensures Decodes(Run(server, Fresh(Flatten(requests)), events), k, Given(server, Fresh(Flatten(requests)), events, k))
  {
    hide Given, Wire, Inv, NothingForgotten, Run, Decodes, Flatten, AllAcceptable, Sound;
    FreshInv(server, requests);
    Pipelining(server, requests, events);
    RunRecords(server, requests, Fresh(Flatten(requests)), events, k);
    assert [] + Given(server, Fresh(Flatten(requests)), events, k) == Given(server, Fresh(Flatten(requests)), events, k);
    WrittenStream(Run(server, Fresh(Flatten(requests)), events), k);
  }
}
