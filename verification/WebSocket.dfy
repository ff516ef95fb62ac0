/** A connection after its WebSocket upgrade: what `process_websocket_buffer`,
    `dispatch_websocket_message`, `complete_ready_websocket` and the reads and writes around them
    do, as functions on the connection's state. */
module WebSocket {
  import opened Text
  import opened WebSocketWire

  datatype Message = Message(opcode: Opcode, payload: seq<byte>)

  /** The message limit and the two validators of websocket.cpp. */
  datatype Rules = Rules(max: nat, validUtf8: seq<byte> -> bool, validCloseCode: nat -> bool)

  /** What waits to be written. */
  datatype Out = PongOf(payload: seq<byte>) | CloseWith(payload: seq<byte>) | FailWith(code: nat) | Answer(message: Message)

  /** `fragment` is the fragmented message collected so far.  Beside the connection: the bytes the
      peer sent that are still unread, the frames taken off the input, the messages handed to the
      handler and what was written. */
  datatype Conn = Conn(
    input: seq<byte>, output: Option<Out>, pending: bool,
    fragment: Option<Message>, closeSent: bool, closeAfterWrite: bool, closing: bool,
    unread: seq<byte>, seen: seq<Frame>, delivered: seq<Message>, sent: seq<Out>)

  function Fresh(unread: seq<byte>): Conn {
    Conn([], None, false, None, false, false, false, unread, [], [], [])
  }

  function Fail(c: Conn, code: nat): (d: Conn)
    ensures |d.input| <= |c.input|
  {
    if c.closing || c.closeSent then c.(closing := true)
    else c.(input := [], output := Some(FailWith(code)), pending := false, fragment := None,
            closeSent := true, closeAfterWrite := true)
  }

  function Dispatch(rules: Rules, c: Conn, m: Message): (d: Conn)
    ensures |d.input| <= |c.input|
  {
    if c.closing || c.pending || c.output.Some? then c
    else if |m.payload| > rules.max then Fail(c, 1009)
    else if m.opcode.TextData? && !rules.validUtf8(m.payload) then Fail(c, 1007)
    else c.(pending := true, delivered := c.delivered + [m])
  }

  /** A close frame carries nothing, or a valid code and a reason in UTF-8. */
  predicate GoodClose(rules: Rules, payload: seq<byte>) {
    payload == [] ||
    (|payload| >= 2 && rules.validCloseCode(Big(payload[..2])) && rules.validUtf8(payload[2..]))
  }

  /** One frame taken off the input. */
  function Handle(rules: Rules, c: Conn, f: Frame): (d: Conn)
    ensures |d.input| <= |c.input|
  {
    match f.opcode
    case Ping => c.(output := Some(PongOf(f.payload)))
    case Pong => c
    case CloseFrame =>
      if !GoodClose(rules, f.payload) then Fail(c, 1002)
      else c.(output := Some(CloseWith(if f.payload == [] then [3, 232] else f.payload)),
              closeAfterWrite := true, closeSent := true)
    case Continuation =>
      if c.fragment.None? then Fail(c, 1002)
      else
        var begun := c.fragment.value;
        if |f.payload| > rules.max - (if |begun.payload| < rules.max then |begun.payload| else rules.max) then Fail(c, 1009)
        else
          var grown := begun.(payload := begun.payload + f.payload);
          if !f.final then c.(fragment := Some(grown)) else Dispatch(rules, c.(fragment := None), grown)
    case _ =>
      if c.fragment.Some? then Fail(c, 1002)
      else if f.final then Dispatch(rules, c, Message(f.opcode, f.payload))
      else c.(fragment := Some(Message(f.opcode, f.payload)))
  }

  predicate Idle(c: Conn) {
    !c.closing && !c.pending && c.output.None?
  }

  function Took(c: Conn, f: Frame, n: nat): Conn
    requires n <= |c.input|
  {
    c.(input := c.input[n..], seen := c.seen + [f])
  }

  /** process_websocket_buffer: frame after frame until something has to be waited for. */
  function Process(rules: Rules, c: Conn): Conn
    decreases |c.input|
  {
    if !Idle(c) then c
    else match ParseClientFrame(c.input, rules.max)
      case More => if |c.input| > rules.max + 14 then Fail(c, 1009) else c
      case Broken(Invalid) => Fail(c, 1002)
      case Broken(TooBig) => Fail(c, 1009)
      case Got(f, n) => Process(rules, Handle(rules, Took(c, f, n), f))
  }

  /** One recv call. */
  function Receive(rules: Rules, c: Conn, count: nat): Conn {
    if !Idle(c) || c.unread == [] then c
    else
      var n := if count == 0 then 1 else if count < |c.unread| then count else |c.unread|;
      Process(rules, c.(input := c.input + c.unread[..n], unread := c.unread[n..]))
  }

  /** The output has been written completely. */
  function Flushed(rules: Rules, c: Conn): Conn {
    if c.closing || c.output.None? then c
    else
      var d := c.(output := None, sent := c.sent + [c.output.value], closeAfterWrite := false);
      if c.closeAfterWrite then d.(closing := true) else Process(rules, d)
  }

  datatype HandlerResult = Threw | Silent | Replied(message: Message)

  /** The handler of the delivered message is done. */
  function Complete(rules: Rules, c: Conn, result: HandlerResult): Conn {
    if c.closing || !c.pending then c
    else
      var d := c.(pending := false);
      match result
      case Threw => Fail(d, 1011)
      case Silent => Process(rules, d)
      case Replied(m) =>
        if |m.payload| > rules.max then Fail(d, 1009)
        else if m.opcode.Continuation? || (m.opcode.TextData? && !rules.validUtf8(m.payload)) then Fail(d, 1011)
        else if IsControl(m.opcode) && |m.payload| > 125 then Fail(d, 1011)
        else if m.opcode.CloseFrame? then d.(output := Some(Answer(m)), closeSent := true, closeAfterWrite := true)
        else d.(output := Some(Answer(m)))
  }

  datatype Event = Arrive(count: nat) | WriteDone | HandlerDone(result: HandlerResult) | PeerGone

  function Step(rules: Rules, c: Conn, e: Event): Conn {
    if c.closing then c
    else match e
      case Arrive(count) => Receive(rules, c, count)
      case WriteDone => Flushed(rules, c)
      case HandlerDone(result) => Complete(rules, c, result)
      case PeerGone => c.(closing := true)
  }

  function Run(rules: Rules, c: Conn, events: seq<Event>): Conn
    decreases |events|
  {
    if events == [] then c else Run(rules, Step(rules, c, events[0]), events[1..])
  }
}
