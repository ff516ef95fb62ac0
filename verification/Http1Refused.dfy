/** How a connection answers a first request it refuses: with one error page whose status tells why, and nothing else. */
module Http1Refused {
  import opened Text
  import opened Framing
  import opened HeaderFields
  import opened RequestParser
  import opened Http1
  import opened RequestEncoding

  /** What is wrong with the first request of a stream. */
  datatype Refusal = BadHead(error: HttpError) | BadRequest(error: HttpError, size: nat)

  /** The framing or the parser refuses what the stream begins with. */
  function RefusalOf(server: Server, stream: string): Option<Refusal> {
    match RequestSize(stream, server.limits)
    case Incomplete => None
    case Refused(e) => Some(BadHead(e))
    case Framed(n) =>
      match ParseRequest(stream[..n])
      case Good(_) => None
      case Fails(e) => Some(BadRequest(e, n))
  }

  /** 431 for a head that is too long, 413 for a request that is too large, 400 for anything else. */
  function StatusFor(r: Refusal): nat {
    match r.error
    case HeaderLimit => 431
    case TooLarge => 413
    case _ => 400
  }

  function Page(server: Server, r: Refusal): Reply {
    Reply(server.errorPage(StatusFor(r)), false, [], true, true)
  }

  // ----- the invariant -----

  /** Nothing has been answered; what was read so far does not yet tell. */
  ghost predicate Waiting(server: Server, stream: string, c: Conn) {
    && c == Fresh(c.unread).(input := c.input, closing := c.closing)
    && c.input + c.unread == stream
    && (!c.closing ==> RequestSize(c.input, server.limits) == Incomplete)
  }

  /** The page is on its way, or out, and the connection with it. */
  ghost predicate Answering(server: Server, r: Refusal, c: Conn) {
    && c.replies == [Page(server, r)] && c.hungUp && c.served == 0
    && c.pending.None? && !c.stream && !c.pendingStream && !c.terminalQueued && c.input == ""
    && |c.dispatched| == (if r.BadRequest? then 1 else 0)
    && c.offset <= |c.output|
    && (c.output != "" ==> c.output == Page(server, r).head && c.sent == c.output[..c.offset] && c.closeAfterWrite)
    && (c.output == "" ==> c.closing && c.sent == Page(server, r).head)
  }

  ghost predicate Refusing(server: Server, stream: string, r: Refusal, c: Conn) {
    Waiting(server, stream, c) || Answering(server, r, c)
  }

  // ----- reading -----

  /** What the buffer tells, the stream tells. */
  lemma Told(server: Server, stream: string, input: string, unread: string)
    requires ValidLimits(server.limits) && input + unread == stream && RequestSize(input, server.limits) != Incomplete
    ensures RequestSize(stream, server.limits) == RequestSize(input, server.limits)
    ensures RequestSize(input, server.limits).Framed? ==>
              var n := RequestSize(input, server.limits).size;
              n <= |input| && stream[..n] == input[..n]
  {
    hide RequestSize;
    FramingIsStable(input, unread, server.limits);
    FrameFits(input, server.limits);
  }

  lemma FrameFits(input: string, o: Limits)
    ensures RequestSize(input, o).Framed? ==> RequestSize(input, o).size <= |input|
  {
  }

  lemma StatusesAgree(r: Refusal)
    ensures Status(r.error) == StatusFor(r)
  {
  }

  lemma PageQueued(server: Server, c: Conn, r: Refusal)
    requires Sound(server) && c.replies == [] && c.sent == "" && !c.closing && c.served == 0 && |c.dispatched| == (if r.BadRequest? then 1 else 0)
    ensures Answering(server, r, QueueError(server, c, Status(r.error)))
  {
    StatusesAgree(r);
    var page := server.errorPage(StatusFor(r));
    assert page != "";
    hide Sound;
    assert page[..0] == "" && [] + [Page(server, r)] == [Page(server, r)];
  }

  lemma {:induction false} ReceiveTells(server: Server, stream: string, c: Conn, counts: seq<nat>, closed: bool)
    requires ValidLimits(server.limits) && Waiting(server, stream, c) && !c.closing
    ensures var (d, end) := Receive(server, c, counts, closed);
            && d == Fresh(d.unread).(input := d.input) && d.input + d.unread == stream
            && (end.Raised? <==> RequestSize(d.input, server.limits).Refused?)
            && (end.Raised? ==> RequestSize(d.input, server.limits).error == end.error)
            && (end.PeerClosed? || end.Blocked? ==> RequestSize(d.input, server.limits) == Incomplete)
            && (end.Complete? ==> RequestSize(d.input, server.limits).Framed?)
    decreases |counts|
  {
    hide RequestSize;
    if counts != [] && c.unread != "" {
      var d := Deliver(c, Delivered(c, counts[0]));
      if RequestSize(d.input, server.limits) == Incomplete {
        ReceiveTells(server, stream, d, counts[1..], closed);
      }
    }
  }

  lemma PrepareTells(server: Server, stream: string, c: Conn, overloaded: bool, r: Refusal)
    requires Sound(server) && c == Fresh(c.unread).(input := c.input) && c.input + c.unread == stream
    requires RefusalOf(server, stream) == Some(r) && !RequestSize(c.input, server.limits).Refused?
    ensures var (f, raised) := PrepareResponse(server, c, overloaded);
            if RequestSize(c.input, server.limits) == Incomplete then f == c && raised.None?
            else raised == Some(r.error) && Answering(server, r, QueueError(server, f, Status(r.error)))
  {
    hide RequestSize, ParseRequest;
    assert !Busy(c);
    if RequestSize(c.input, server.limits).Framed? {
      Told(server, stream, c.input, c.unread);
      var n := RequestSize(c.input, server.limits).size;
      PageQueued(server, Taken(c, n, c.served), r);
    }
  }

  lemma ReadRefuses(server: Server, stream: string, c: Conn, counts: seq<nat>, closed: bool, overloaded: bool, r: Refusal)
    requires Sound(server) && Waiting(server, stream, c) && !c.closing && RefusalOf(server, stream) == Some(r)
    ensures Refusing(server, stream, r, ReadReady(server, c, counts, closed, overloaded))
  {
    ReceiveTells(server, stream, c, counts, closed);
    var (d, end) := Receive(server, c, counts, closed);
    hide Receive, RequestSize, Sound, Answering, PrepareResponse, QueueError;
    assert ValidLimits(server.limits) by { SoundLimits(server); }
    if end.Raised? {
      Told(server, stream, d.input, d.unread);
      PageQueued(server, d, r);
    } else if !end.PeerClosed? {
      PrepareTells(server, stream, d, overloaded, r);
    }
  }

  lemma SoundLimits(server: Server)
    requires Sound(server)
    ensures ValidLimits(server.limits)
  {
  }

  // ----- writing -----

  lemma WriteAnswers(server: Server, c: Conn, counts: seq<nat>, broke: bool, overloaded: bool, r: Refusal)
    requires Answering(server, r, c) && c.output != ""
    ensures Answering(server, r, WriteReady(server, c, counts, broke, overloaded))
  {
    var d := Send(c, counts);
    assert c.output[..c.offset] + c.output[c.offset..d.offset] == d.output[..d.offset];
    assert d.offset == |d.output| ==> d.output[..d.offset] == d.output;
    hide Sum, PrepareResponse;
  }

  lemma StepRefuses(server: Server, stream: string, c: Conn, e: Event, r: Refusal)
    requires Sound(server) && RefusalOf(server, stream) == Some(r) && Refusing(server, stream, r, c)
    ensures c.offset <= |c.output| && Refusing(server, stream, r, Step(server, c, e))
  {
    hide RefusalOf, Sound, ReadReady, WriteReady;
    if !c.closing {
      match e
      case Readable(counts, closed, overloaded) =>
        if c.output == "" { ReadRefuses(server, stream, c, counts, closed, overloaded, r); }
      case Writable(counts, broke, overloaded) =>
        if c.output != "" { WriteAnswers(server, c, counts, broke, overloaded, r); }
      case HandlerDone(answer) =>
      case ChunkDone(produced) =>
      case SocketError =>
    }
  }

  lemma {:induction false} RunRefuses(server: Server, stream: string, c: Conn, events: seq<Event>, r: Refusal)
    requires Sound(server) && RefusalOf(server, stream) == Some(r) && Refusing(server, stream, r, c)
    ensures c.offset <= |c.output| && Refusing(server, stream, r, Run(server, c, events))
    decreases |events|
  {
    hide Refusing, RefusalOf, Sound;
    if events == [] {
      StepRefuses(server, stream, c, SocketError, r);
    } else {
      StepRefuses(server, stream, c, events[0], r);
      hide Step;
      RunRefuses(server, stream, Step(server, c, events[0]), events[1..], r);
    }
  }

  /** REFUSED REQUESTS.  Whatever a stream begins with that is no request, and however it arrives: no handler runs, at
      most one answer is given, the error page of the right status, nothing but that page is written, and the
      connection closes behind it. */
  lemma RefusedAnswered(server: Server, stream: string, events: seq<Event>, r: Refusal)
    requires Sound(server) && RefusalOf(server, stream) == Some(r)
    ensures var c := Run(server, Fresh(stream), events);
            && c.pending.None? && c.served == 0
            && (c.replies == [] || c.replies == [Page(server, r)])
            && c.sent <= server.errorPage(StatusFor(r))
            && (c.replies != [] && !c.closing ==> c.closeAfterWrite)
            && (c.unread == "" && !c.closing ==> c.replies != [])
  {
    assert Waiting(server, stream, Fresh(stream)) by {
      assert "" + stream == stream;
      EmptyIncomplete(server.limits);
    }
    RunRefuses(server, stream, Fresh(stream), events, r);
    var c := Run(server, Fresh(stream), events);
    hide Run, Sound;
    assert c.unread == "" ==> c.input + c.unread == c.input;
  }

  lemma EmptyIncomplete(o: Limits)
    ensures RequestSize("", o) == Incomplete
  {
  }

  // ----- clients -----

  lemma {:induction false} LineErrors(message: string, headerEnd: nat, cursor: nat, seen: Seen)
    requires headerEnd <= |message| && LinesFrom(message, headerEnd, cursor, seen).Fails?
    ensures LinesFrom(message, headerEnd, cursor, seen).error !in {HeaderLimit, TooLarge}
    decreases headerEnd - cursor
  {
    hide Find, Trim, ValidName, ValidValue, Lower, ParseSize;
    var end := BoundedEnd(message, headerEnd, cursor);
    var read := ReadLine(message[cursor..end], seen);
    if read.Good? {
      LineErrors(message, headerEnd, end + 2, read.value);
    }
  }

  /** The parser never calls a request too long or too large: that is for the framing. */
  lemma ParserErrors(message: string)
    requires ParseRequest(message).Fails?
    ensures ParseRequest(message).error !in {HeaderLimit, TooLarge}
  {
    hide Find, LinesFrom;
    var blank, first := Find(message, BLANK, 0), Find(message, CRLF, 0);
    if blank.Some? && first.Some? && first.value <= blank.value {
      BlankFits(message);
      var lines := LinesFrom(message, blank.value, first.value + 2, Seen([], None, false, 0));
      if lines.Fails? {
        LineErrors(message, blank.value, first.value + 2, Seen([], None, false, 0));
      }
    }
  }

  /** The status a client should get for what it wrote, if it is refused. */
  function ClientStatus(server: Server, q: Outgoing): Option<nat> {
    if |HeadSection(q)| + 4 > server.limits.maxHeader then Some(431)
    else if !EdgelessNames(q.headers) || !LengthClear(q.headers) then Some(400)
    else if |HeadSection(q)| + 4 + BodyLength(q.headers) > server.limits.maxRequest then Some(413)
    else if !Takes(q) then Some(400)
    else None
  }

  /** THE RIGHT STATUS.  Whatever a client writes as a whole request is refused exactly for the reasons of the standard
      and the limits, with the status that says which. */
  lemma ClientRefused(server: Server, q: Outgoing)
    requires Written(q) && |q.body| == BodyLength(q.headers)
    ensures var r := RefusalOf(server, EncodeRequest(q));
            if ClientStatus(server, q).None? then r.None? else r.Some? && StatusFor(r.value) == ClientStatus(server, q).value
  {
    var message := EncodeRequest(q);
    hide RequestSize, ParseRequest, EncodeRequest, HeadSection, EdgelessNames, LengthClear, Takes, Declared, Written;
    RequestFrames(q, server.limits);
    HeadEnds(q);
    RequestReads(q);
    var frame := RequestSize(message, server.limits);
    if frame.Framed? {
      assert message[..frame.size] == message;
      if ParseRequest(message).Fails? {
        ParserErrors(message);
      }
    }
  }
}
