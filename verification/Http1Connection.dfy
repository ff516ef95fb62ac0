/** The reactor's handlers for one HTTP/1 connection, updating its `ConnectionState` in place. */
module Http1Connection {
  import opened Text
  import opened Framing
  import opened RequestParser
  import opened Chunked
  import opened Http1

  /** What is recorded around the connection: bytes still unread and already sent, the requests taken, the
      answers given, and whether the rest of the input was thrown away. */
  datatype Outside = Outside(unread: string, sent: string, dispatched: seq<string>, replies: seq<Reply>, hungUp: bool)

  lemma SumStep(counts: seq<nat>, k: nat)
    requires k < |counts|
    ensures Sum(counts[k..]) == counts[k] + Sum(counts[k + 1..])
  {
    assert counts[k..][1..] == counts[k + 1..];
  }

  lemma SumEnds(counts: seq<nat>)
    ensures Sum(counts[|counts|..]) == 0
  {
  }

  class Connection {
    const server: Server
    var input: string
    var output: string
    var offset: nat
    var served: nat
    var pending: Option<Pending>
    var stream: bool
    var pendingStream: bool
    var terminalQueued: bool
    var closeAfterWrite: bool
    var closing: bool
    var outside: Outside

    ghost function Now(): Conn
      reads this
    {
      Conn(input, output, offset, served, pending, stream, pendingStream, terminalQueued,
           closeAfterWrite, closing, outside.unread, outside.sent, outside.dispatched, outside.replies, outside.hungUp)
    }

    constructor (server: Server, unread: string)
      ensures this.server == server && Now() == Fresh(unread)
    {
      this.server := server;
      input, output, offset, served := "", "", 0, 0;
      pending, stream, pendingStream, terminalQueued := None, false, false, false;
      closeAfterWrite, closing := false, false;
      outside := Outside(unread, "", [], [], false);
    }

    method Answer(text: string, close: bool)
      modifies `output, `offset, `outside, `pending, `closeAfterWrite
      ensures Now() == Answered(old(Now()), text, close)
    {
      output, offset, pending, closeAfterWrite := text, 0, None, close;
      outside := outside.(replies := outside.replies + [Reply(text, false, [], true, close)]);
    }

    method StartStream(head: string, close: bool)
      modifies `output, `offset, `outside, `pending, `stream, `closeAfterWrite
      ensures Now() == StreamStarted(old(Now()), head, close)
    {
      output, offset, pending, stream, closeAfterWrite := head, 0, None, true, close;
      outside := outside.(replies := outside.replies + [Reply(head, true, [], false, close)]);
    }

    method HangUp(text: string)
      modifies `input, `output, `offset, `pending, `stream, `pendingStream, `terminalQueued, `closeAfterWrite,
               `outside
      ensures Now() == HungUp(old(Now()), text)
    {
      Answer(text, true);
      stream, pendingStream, terminalQueued, input := false, false, false, "";
      outside := outside.(hungUp := true);
    }

    method QueueError(status: nat)
      modifies `input, `output, `offset, `pending, `stream, `pendingStream, `terminalQueued, `closeAfterWrite,
               `outside
      ensures Now() == Http1.QueueError(server, old(Now()), status)
    {
      HangUp(server.errorPage(status));
    }

    method PrepareResponse(overloaded: bool) returns (raised: Option<HttpError>)
      modifies this
      ensures (Now(), raised) == Http1.PrepareResponse(server, old(Now()), overloaded)
    {
      hide RequestSize, ParseRequest;
      if output != "" || pending.Some? || stream || pendingStream || terminalQueued { return None; }
      var expected := RequestSize(input, server.limits);
      if expected.Refused? { return Some(expected.error); }
      if expected.Incomplete? { return None; }
      var raw := input[..expected.size];
      input, outside := input[expected.size..], outside.(dispatched := outside.dispatched + [raw]);
      var request := Parse(raw);
      if request.Fails? { return Some(request.error); }
      served := served + 1;
      var head := request.value.verb.Head?;
      if overloaded {
        HangUp(server.render(OVERLOADED, head, false));
      } else {
        pending := Some(Pending(head, server.keepAlive(raw, served)));
      }
      return None;
    }

    method CompleteHandler(answer: Answer)
      modifies `input, `output, `offset, `pending, `stream, `pendingStream, `terminalQueued, `closeAfterWrite,
               `outside
      ensures Now() == Http1.CompleteHandler(server, old(Now()), answer)
    {
      hide HungUp, Answered, StreamStarted;
      if closing || pending.None? { return; }
      var p := pending.value;
      var keep := !answer.Failure? && p.keepAlive && !closeAfterWrite;
      if answer.Refusal? {
        QueueError(answer.status);
      } else if answer.Streaming? && !p.omitBody {
        StartStream(server.renderHead(answer.response, false, keep), !keep);
      } else {
        Answer(if answer.Streaming? then server.renderHead(answer.response, true, keep)
               else server.render(if answer.Failure? then INTERNAL_ERROR else answer.response, p.omitBody, keep), !keep);
      }
    }

    method RequestStreamChunk()
      modifies `pendingStream
      ensures Now() == Http1.RequestStreamChunk(old(Now()))
    {
      if closing || !stream || pendingStream || output != "" { return; }
      pendingStream := true;
    }

    method CompleteStream(produced: Produced)
      modifies `output, `offset, `stream, `pendingStream, `terminalQueued, `closing, `outside
      ensures Now() == Http1.CompleteStream(server, old(Now()), produced)
    {
      hide Http1.StreamData, StreamEnded;
      if closing || !pendingStream || outside.replies == [] { return; }
      match produced
      case Broke => pendingStream, closing := false, true;
      case End => EndStream();
      case Data(chunk) =>
        pendingStream := false;
        StreamData(chunk);
    }

    method EndStream()
      requires outside.replies != []
      modifies `output, `offset, `stream, `pendingStream, `terminalQueued, `outside
      ensures Now() == StreamEnded(old(Now()))
    {
      pendingStream, stream, output, offset, terminalQueued := false, false, CHUNK_END, 0, true;
      var replies := outside.replies;
      outside := outside.(replies := LastReply(replies, replies[|replies| - 1].(done := true)));
    }

    method StreamData(chunk: string)
      requires outside.replies != []
      modifies `output, `offset, `pendingStream, `closing, `outside
      ensures Now() == Http1.StreamData(server, old(Now()), chunk)
    {
      hide SerializeChunk;
      var replies := outside.replies;
      var last := replies[|replies| - 1];
      var more := LastReply(replies, last.(chunks := last.chunks + [chunk]));
      if chunk == "" {
        outside := outside.(replies := more);
        RequestStreamChunk();
      } else if |chunk| > server.maxChunk {
        closing := true;
      } else {
        outside, output, offset := outside.(replies := more), SerializeChunk(chunk), 0;
      }
    }

    /** The write loop: each count is what one send call takes. */
    method Send(counts: seq<nat>)
      requires offset <= |output|
      modifies `offset, `outside
      ensures Now() == Http1.Send(old(Now()), counts)
    {
      hide Sum;
      assert counts[0..] == counts;
      var start := offset;
      var k := 0;
      while offset < |output| && k < |counts|
        invariant 0 <= k <= |counts| && old(offset) <= offset <= |output| && outside == old(outside)
        invariant Min(|output|, offset + Sum(counts[k..])) == Min(|output|, old(offset) + Sum(counts))
      {
        var written := Min(|output| - offset, counts[k]);
        SumStep(counts, k);
        offset := offset + written;
        k := k + 1;
      }
      SumEnds(counts);
      outside := outside.(sent := outside.sent + output[start..offset]);
    }

    method WriteReady(counts: seq<nat>, broke: bool, overloaded: bool)
      requires offset <= |output|
      modifies this
      ensures Now() == Http1.WriteReady(server, old(Now()), counts, broke, overloaded)
    {
      hide Http1.Send, Http1.Finish;
      Send(counts);
      if offset < |output| {
        if broke { closing := true; }
        return;
      }
      Finish(overloaded);
    }

    /** Everything queued has been written. */
    method Finish(overloaded: bool)
      modifies this
      ensures Now() == Http1.Finish(server, old(Now()), overloaded)
    {
      hide Http1.PrepareResponse;
      var close, streamContinues := closeAfterWrite, stream || pendingStream;
      output, offset := "", 0;
      if streamContinues {
        RequestStreamChunk();
        return;
      }
      terminalQueued, closeAfterWrite := false, false;
      if close {
        closing := true;
      } else if input != "" {
        var raised := PrepareResponse(overloaded);
        if raised.Some? { closing := true; }
      }
    }

    /** The read loop: each count is what one recv call delivers. */
    method Receive(counts: seq<nat>, closed: bool) returns (end: ReadEnd)
      modifies `input, `outside
      ensures (Now(), end) == Http1.Receive(server, old(Now()), counts, closed)
    {
      hide RequestSize;
      var k := 0;
      while k < |counts| && outside.unread != ""
        invariant 0 <= k <= |counts|
        invariant Http1.Receive(server, Now(), counts[k..], closed) == Http1.Receive(server, old(Now()), counts, closed)
      {
        var n := Min(Min(if counts[k] == 0 then 1 else counts[k], READ_BUFFER), |outside.unread|);
        input := input + outside.unread[..n];
        outside := outside.(unread := outside.unread[n..]);
        assert counts[k..][1..] == counts[k + 1..];
        match RequestSize(input, server.limits) {
          case Refused(e) => return Raised(e);
          case Framed(_) => return Complete;
          case Incomplete =>
        }
        k := k + 1;
      }
      return if closed then PeerClosed else Blocked;
    }

    method ReadReady(counts: seq<nat>, closed: bool, overloaded: bool)
      modifies this
      ensures Now() == Http1.ReadReady(server, old(Now()), counts, closed, overloaded)
    {
      hide Http1.Receive, Http1.PrepareResponse;
      var end := Receive(counts, closed);
      match end
      case PeerClosed => closing := true;
      case Raised(e) => QueueError(Status(e));
      case _ =>
        var raised := PrepareResponse(overloaded);
        if raised.Some? { QueueError(Status(raised.value)); }
    }
  }
}
