/** One HTTP/1 connection of the reactor: what every handler of `server.cpp` does to the
    `ConnectionState`, as functions on its value. */
module Http1 {
  import opened Text
  import opened Framing
  import opened RequestParser
  import opened Chunked

  /** What a handler answered, by name; 0 and 1 are the server's own 500 and 503 answers. */
  type Response = nat
  const INTERNAL_ERROR: Response := 0
  const OVERLOADED: Response := 1

  /** `render` is serialize_response(response, omit body, keep alive), `renderHead` is
      serialize_stream_headers, `keepAlive` is keep_alive_for(raw request, requests served). */
  datatype Server = Server(
    limits: Limits,
    maxChunk: nat,
    keepAlive: (string, nat) -> bool,
    render: (Response, bool, bool) -> string,
    renderHead: (Response, bool, bool) -> string,
    errorPage: nat -> string)

  /** A status line is never empty. */
  ghost predicate Sound(server: Server) {
    && ValidLimits(server.limits)
    && (forall r, o, k :: server.render(r, o, k) != "")
    && (forall r, o, k :: server.renderHead(r, o, k) != "")
    && (forall status :: server.errorPage(status) != "")
  }

  /** The answer to one request, as put on the wire so far; `closes` says that it announces the end of the
      connection. */
  datatype Reply = Reply(head: string, streaming: bool, chunks: seq<string>, done: bool, closes: bool)

  function Bytes(r: Reply): string {
    r.head + if r.streaming then Encode(r.chunks) + (if r.done then CHUNK_END else "") else ""
  }

  function Wire(replies: seq<Reply>): string {
    if replies == [] then "" else Wire(replies[..|replies| - 1]) + Bytes(replies[|replies| - 1])
  }

  datatype Pending = Pending(omitBody: bool, keepAlive: bool)

  /** The connection, and around it the bytes the peer has sent that are still unread, the bytes
      written to the peer, the requests handed to parse_request and the answers given.
      `hungUp` marks that the rest of the input was thrown away. */
  datatype Conn = Conn(
    input: string, output: string, offset: nat, served: nat,
    pending: Option<Pending>, stream: bool, pendingStream: bool, terminalQueued: bool,
    closeAfterWrite: bool, closing: bool,
    unread: string, sent: string, dispatched: seq<string>, replies: seq<Reply>, hungUp: bool)

  function Fresh(unread: string): Conn {
    Conn("", "", 0, 0, None, false, false, false, false, false, unread, "", [], [], false)
  }

  function Close(c: Conn): Conn {
    c.(closing := true)
  }

  /** Puts a complete answer out; no handler is running any more. */
  function Answered(c: Conn, text: string, close: bool): Conn {
    c.(output := text, offset := 0, pending := None, closeAfterWrite := close,
       replies := c.replies + [Reply(text, false, [], true, close)])
  }

  /** Puts the head of a streaming answer out; its body follows chunk by chunk. */
  function StreamStarted(c: Conn, head: string, close: bool): Conn {
    c.(output := head, offset := 0, pending := None, stream := true, closeAfterWrite := close,
       replies := c.replies + [Reply(head, true, [], false, close)])
  }

  /** Answers and throws the rest of the input away. */
  function HungUp(c: Conn, text: string): Conn {
    c.(output := text, offset := 0, pending := None, closeAfterWrite := true,
       stream := false, pendingStream := false, terminalQueued := false, input := "", hungUp := true,
       replies := c.replies + [Reply(text, false, [], true, true)])
  }

  function QueueError(server: Server, c: Conn, status: nat): Conn {
    HungUp(c, server.errorPage(status))
  }

  function Status(e: HttpError): nat {
    if e == HeaderLimit then 431 else if e == TooLarge then 413 else 400
  }

  /** The connection is in the middle of a request; prepare_response must wait. */
  predicate Busy(c: Conn) {
    c.output != "" || c.pending.Some? || c.stream || c.pendingStream || c.terminalQueued
  }

  /** The request is cut off the input and handed to parse_request. */
  function Taken(c: Conn, n: nat, served: nat): Conn
    requires n <= |c.input|
  {
    c.(input := c.input[n..], dispatched := c.dispatched + [c.input[..n]], served := served)
  }

  function PrepareResponse(server: Server, c: Conn, overloaded: bool): (r: (Conn, Option<HttpError>))
    ensures c.offset <= |c.output| ==> r.0.offset <= |r.0.output|
  {
    if Busy(c) then (c, None)
    else match RequestSize(c.input, server.limits)
      case Refused(e) => (c, Some(e))
      case Incomplete => (c, None)
      case Framed(n) =>
        var raw := c.input[..n];
        match ParseRequest(raw)
        case Fails(e) => (Taken(c, n, c.served), Some(e))
        case Good(request) =>
          var head, taken := request.verb.Head?, Taken(c, n, c.served + 1);
          if overloaded then (HungUp(taken, server.render(OVERLOADED, head, false)), None)
          else (taken.(pending := Some(Pending(head, server.keepAlive(raw, taken.served)))), None)
  }

  /** What came of a handler: a response, a refusal by the server (500 for a response that cannot be serialised,
      400 for a WebSocket upgrade the request does not allow), or a failure. */
  datatype Answer = Whole(response: Response) | Streaming(response: Response) | Refusal(status: nat) | Failure

  function CompleteHandler(server: Server, c: Conn, answer: Answer): (d: Conn)
    ensures c.offset <= |c.output| ==> d.offset <= |d.output|
  {
    if c.closing || c.pending.None? then c
    else
      var p := c.pending.value;
      var keep := !answer.Failure? && p.keepAlive && !c.closeAfterWrite;
      match answer
      case Refusal(status) => QueueError(server, c, status)
      case Failure => Answered(c, server.render(INTERNAL_ERROR, p.omitBody, keep), !keep)
      case Whole(r) => Answered(c, server.render(r, p.omitBody, keep), !keep)
      case Streaming(r) =>
        var head := server.renderHead(r, p.omitBody, keep);
        if p.omitBody then Answered(c, head, !keep)
        else StreamStarted(c, head, !keep)
  }

  function RequestStreamChunk(c: Conn): Conn {
    if c.closing || !c.stream || c.pendingStream || c.output != "" then c else c.(pendingStream := true)
  }

  datatype Produced = Data(chunk: string) | End | Broke

  function LastReply(replies: seq<Reply>, r: Reply): seq<Reply> {
    if replies == [] then [] else replies[..|replies| - 1] + [r]
  }

  function CompleteStream(server: Server, c: Conn, produced: Produced): (d: Conn)
    ensures c.offset <= |c.output| ==> d.offset <= |d.output|
  {
    if c.closing || !c.pendingStream || c.replies == [] then c
    else
      match produced
      case Broke => c.(pendingStream := false, closing := true)
      case End => StreamEnded(c)
      case Data(chunk) => StreamData(server, c.(pendingStream := false), chunk)
  }

  function StreamEnded(c: Conn): Conn
    requires c.replies != []
  {
    c.(pendingStream := false, stream := false, output := CHUNK_END, offset := 0, terminalQueued := true,
       replies := LastReply(c.replies, c.replies[|c.replies| - 1].(done := true)))
  }

  function StreamData(server: Server, c: Conn, chunk: string): (d: Conn)
    requires c.replies != []
    ensures c.offset <= |c.output| ==> d.offset <= |d.output|
  {
    var last := c.replies[|c.replies| - 1];
    var more := LastReply(c.replies, last.(chunks := last.chunks + [chunk]));
    if chunk == "" then RequestStreamChunk(c.(replies := more))
    else if |chunk| > server.maxChunk then Close(c)
    else c.(replies := more, output := SerializeChunk(chunk), offset := 0)
  }

  // ----- writing -----

  function Sum(counts: seq<nat>): nat {
    if counts == [] then 0 else counts[0] + Sum(counts[1..])
  }

  /** The peer takes as many bytes as the counts allow, in however many pieces. */
  function Send(c: Conn, counts: seq<nat>): Conn
    requires c.offset <= |c.output|
  {
    var offset := Min(|c.output|, c.offset + Sum(counts));
    c.(offset := offset, sent := c.sent + c.output[c.offset..offset])
  }

  function Finish(server: Server, c: Conn, overloaded: bool): (d: Conn)
    ensures d.offset <= |d.output|
  {
    var d := c.(output := "", offset := 0);
    if c.stream || c.pendingStream then RequestStreamChunk(d)
    else
      var e := d.(terminalQueued := false, closeAfterWrite := false);
      if c.closeAfterWrite then Close(e)
      else if e.input == "" then e
      else
        var (f, raised) := PrepareResponse(server, e, overloaded);
        if raised.Some? then Close(f) else f
  }

  /** `broke`: after taking those bytes the socket failed instead of blocking. */
  function WriteReady(server: Server, c: Conn, counts: seq<nat>, broke: bool, overloaded: bool): (d: Conn)
    requires c.offset <= |c.output|
    ensures d.offset <= |d.output|
  {
    var d := Send(c, counts);
    if d.offset == |d.output| then Finish(server, d, overloaded)
    else if broke then Close(d) else d
  }

  // ----- reading -----

  const READ_BUFFER := 8192

  /** What one recv call delivers: at least a byte, at most the buffer and what is there. */
  function Delivered(c: Conn, count: nat): (n: nat)
    requires c.unread != ""
    ensures 1 <= n <= |c.unread|
  {
    Min(Min(if count == 0 then 1 else count, READ_BUFFER), |c.unread|)
  }

  function Deliver(c: Conn, n: nat): (d: Conn)
    requires n <= |c.unread|
    ensures d.input + d.unread == c.input + c.unread
  {
    c.(input := c.input + c.unread[..n], unread := c.unread[n..])
  }

  datatype ReadEnd = Complete | Blocked | PeerClosed | Raised(error: HttpError)

  /** recv in a loop: each count is how much one call delivers; the loop ends when a request is
      complete, the socket blocks, the peer has closed, or the framing refuses the input. */
  function Receive(server: Server, c: Conn, counts: seq<nat>, closed: bool): (r: (Conn, ReadEnd))
    ensures r.0 == c.(input := r.0.input, unread := r.0.unread)
    ensures r.0.input + r.0.unread == c.input + c.unread
    decreases |counts|
  {
    if counts == [] || c.unread == "" then (c, if closed then PeerClosed else Blocked)
    else
      var d := Deliver(c, Delivered(c, counts[0]));
      match RequestSize(d.input, server.limits)
      case Refused(e) => (d, Raised(e))
      case Framed(_) => (d, Complete)
      case Incomplete => Receive(server, d, counts[1..], closed)
  }

  function ReadReady(server: Server, c: Conn, counts: seq<nat>, closed: bool, overloaded: bool): (d: Conn)
    ensures c.offset <= |c.output| ==> d.offset <= |d.output|
  {
    var (d, end) := Receive(server, c, counts, closed);
    match end
    case PeerClosed => Close(d)
    case Raised(e) => QueueError(server, d, Status(e))
    case _ =>
      var (f, raised) := PrepareResponse(server, d, overloaded);
      if raised.Some? then QueueError(server, f, Status(raised.value)) else f
  }

  // ----- runs -----

  datatype Event =
    | Readable(counts: seq<nat>, closed: bool, overloaded: bool)
    | Writable(counts: seq<nat>, broke: bool, overloaded: bool)
    | HandlerDone(answer: Answer)
    | ChunkDone(produced: Produced)
    | SocketError

  /** The reactor reads only when nothing waits to be written, and writes only when something does. */
  function Step(server: Server, c: Conn, e: Event): (d: Conn)
    requires c.offset <= |c.output|
    ensures d.offset <= |d.output|
  {
    if c.closing then c
    else match e
      case Readable(counts, closed, overloaded) =>
        if c.output == "" then ReadReady(server, c, counts, closed, overloaded) else c
      case Writable(counts, broke, overloaded) =>
        if c.output != "" then WriteReady(server, c, counts, broke, overloaded) else c
      case HandlerDone(answer) => CompleteHandler(server, c, answer)
      case ChunkDone(produced) => CompleteStream(server, c, produced)
      case SocketError => Close(c)
  }

  function Run(server: Server, c: Conn, events: seq<Event>): (d: Conn)
    requires c.offset <= |c.output|
    ensures d.offset <= |d.output|
    decreases |events|
  {
    if events == [] then c else Run(server, Step(server, c, events[0]), events[1..])
  }
}
