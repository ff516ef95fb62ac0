/** The reactor's WebSocket handlers, updating the connection in place. */
module WebSocketConnection {
  import opened Text
  import opened WebSocketWire
  import opened WebSocket

  class Session {
    const rules: Rules
    var input: seq<byte>
    var output: Option<Out>
    var pending: bool
    var fragment: Option<Message>
    var closeSent: bool
    var closeAfterWrite: bool
    var closing: bool
    // the outside
    var unread: seq<byte>
    var seen: seq<Frame>
    var delivered: seq<Message>
    var sent: seq<Out>

    ghost function Now(): Conn
      reads this
    {
      Conn(input, output, pending, fragment, closeSent, closeAfterWrite, closing, unread, seen, delivered, sent)
    }

    constructor (rules: Rules, unread: seq<byte>)
      ensures this.rules == rules && Now() == Fresh(unread)
    {
      this.rules := rules;
      input, output, pending, fragment := [], None, false, None;
      closeSent, closeAfterWrite, closing := false, false, false;
      this.unread, seen, delivered, sent := unread, [], [], [];
    }

    method Fail(code: nat)
      modifies `input, `output, `pending, `fragment, `closeSent, `closeAfterWrite, `closing
      ensures Now() == WebSocket.Fail(old(Now()), code)
    {
      if closing || closeSent {
        closing := true;
        return;
      }
      input, output, pending, fragment := [], Some(FailWith(code)), false, None;
      closeSent, closeAfterWrite := true, true;
    }

    method DispatchMessage(m: Message)
      modifies `input, `output, `pending, `fragment, `closeSent, `closeAfterWrite, `closing, `delivered
      ensures Now() == Dispatch(rules, old(Now()), m)
    {
      if closing || pending || output.Some? { return; }
      if |m.payload| > rules.max {
        Fail(1009);
      } else if m.opcode.TextData? && !rules.validUtf8(m.payload) {
        Fail(1007);
      } else {
        pending, delivered := true, delivered + [m];
      }
    }

    method Continue(f: Frame)
      requires f.opcode.Continuation?
      modifies `input, `output, `pending, `fragment, `closeSent, `closeAfterWrite, `closing, `delivered
      ensures Now() == Handle(rules, old(Now()), f)
    {
      hide WebSocket.Fail, Dispatch;
      if fragment.None? {
        Fail(1002);
        return;
      }
      var begun := fragment.value;
      if |f.payload| > rules.max - (if |begun.payload| < rules.max then |begun.payload| else rules.max) {
        Fail(1009);
        return;
      }
      var grown := begun.(payload := begun.payload + f.payload);
      if !f.final {
        fragment := Some(grown);
        return;
      }
      fragment := None;
      DispatchMessage(grown);
    }

    method HandleFrame(f: Frame)
      modifies `input, `output, `pending, `fragment, `closeSent, `closeAfterWrite, `closing, `delivered
      ensures Now() == Handle(rules, old(Now()), f)
    {
      hide WebSocket.Fail, Dispatch;
      match f.opcode
      case Ping => output := Some(PongOf(f.payload));
      case Pong =>
      case CloseFrame =>
        if !GoodClose(rules, f.payload) {
          Fail(1002);
        } else {
          output := Some(CloseWith(if f.payload == [] then [3, 232] else f.payload));
          closeAfterWrite, closeSent := true, true;
        }
      case Continuation => Continue(f);
      case _ =>
        if fragment.Some? {
          Fail(1002);
        } else if f.final {
          DispatchMessage(Message(f.opcode, f.payload));
        } else {
          fragment := Some(Message(f.opcode, f.payload));
        }
    }

    /** Frame after frame, until the session must wait for its handler, its output or the peer. */
    method ProcessBuffer()
      modifies this
      ensures Now() == Process(rules, old(Now()))
    {
      hide WebSocket.Fail, Handle, ParseClientFrame;
      while !closing && !pending && output.None?
        invariant Process(rules, Now()) == Process(rules, old(Now()))
        decreases |input|, output.None?
      {
        match ParseClientFrame(input, rules.max) {
          case More =>
            if |input| > rules.max + 14 { Fail(1009); }
            return;
          case Broken(error) =>
            Fail(if error.Invalid? then 1002 else 1009);
            return;
          case Got(f, n) =>
            input, seen := input[n..], seen + [f];
            HandleFrame(f);
        }
      }
    }

    /** One recv call that delivers something. */
    method Receive(count: nat)
      modifies this
      ensures Now() == WebSocket.Receive(rules, old(Now()), count)
    {
      hide Process;
      if closing || pending || output.Some? || unread == [] { return; }
      var n := if count == 0 then 1 else if count < |unread| then count else |unread|;
      input, unread := input + unread[..n], unread[n..];
      ProcessBuffer();
    }

    method OutputWritten()
      modifies this
      ensures Now() == Flushed(rules, old(Now()))
    {
      hide Process;
      if closing || output.None? { return; }
      var close := closeAfterWrite;
      output, sent, closeAfterWrite := None, sent + [output.value], false;
      if close {
        closing := true;
      } else {
        ProcessBuffer();
      }
    }

    method CompleteReady(result: HandlerResult)
      modifies this
      ensures Now() == Complete(rules, old(Now()), result)
    {
      hide Process, WebSocket.Fail;
      if closing || !pending { return; }
      pending := false;
      match result
      case Threw => Fail(1011);
      case Silent => ProcessBuffer();
      case Replied(m) =>
        if |m.payload| > rules.max {
          Fail(1009);
        } else if m.opcode.Continuation? || (m.opcode.TextData? && !rules.validUtf8(m.payload)) {
          Fail(1011);
        } else if IsControl(m.opcode) && |m.payload| > 125 {
          Fail(1011);
        } else {
          output := Some(Answer(m));
          if m.opcode.CloseFrame? {
            closeSent, closeAfterWrite := true, true;
          }
        }
    }
  }
}
