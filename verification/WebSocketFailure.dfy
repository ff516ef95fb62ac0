/** Why a session fails: the close code it sends is the one its peer's bytes or its handler call for
    (section 7.4.1 of RFC 6455). */
module WebSocketFailure {
  import opened Text
  import opened WebSocketWire
  import opened WebSocket
  import opened WebSocketOrder
  import opened WebSocketOutput

  // ----- the reference -----

  const PROTOCOL_ERROR := 1002
  const INVALID_TEXT := 1007
  const TOO_BIG := 1009
  const INTERNAL_ERROR := 1011

  /** The bytes behind the frames of a stream. */
  function Left(stream: seq<byte>, max: nat): seq<byte>
    decreases |stream|
  {
    match ParseClientFrame(stream, max)
    case Got(_, n) => Left(stream[n..], max)
    case _ => stream
  }

  function WireFault(p: Parse): Option<nat> {
    match p
    case Broken(Invalid) => Some(PROTOCOL_ERROR)
    case Broken(TooBig) => Some(TOO_BIG)
    case _ => None
  }

  /** A close frame says nothing, or a code in its first two bytes and then a reason (section 5.5.1 of RFC 6455). */
  predicate CloseAllowed(rules: Rules, payload: seq<byte>) {
    |payload| == 0 ||
    (|payload| >= 2 && rules.validCloseCode(256 * (payload[0] as int) + payload[1]) && rules.validUtf8(payload[2..]))
  }

  lemma CloseIsGood(rules: Rules, payload: seq<byte>)
    ensures GoodClose(rules, payload) == CloseAllowed(rules, payload)
  {
    if |payload| >= 2 {
      var two := payload[..2];
      assert two[..1] == [payload[0]] && [payload[0]][..0] == [];
      assert Big([payload[0]]) == payload[0];
    }
  }

  /** What is wrong with a frame after these. */
  ghost function FrameFault(rules: Rules, front: seq<Frame>, f: Frame): Option<nat> {
    var begun := Tail(rules, DataFrames(front));
    if f.opcode.CloseFrame? then if CloseAllowed(rules, f.payload) then None else Some(PROTOCOL_ERROR)
    else if f.opcode.Ping? || f.opcode.Pong? || begun.None? then None
    else if f.opcode.Continuation? == (begun.value == []) then Some(PROTOCOL_ERROR)
    else
      var group := begun.value + [f];
      if |Payloads(group)| > rules.max then Some(TOO_BIG)
      else if f.final && group[0].opcode.TextData? && !rules.validUtf8(Payloads(group)) then Some(INVALID_TEXT)
      else None
  }

  function ResultFault(rules: Rules, result: HandlerResult): Option<nat> {
    match result
    case Threw => Some(INTERNAL_ERROR)
    case Silent => None
    case Replied(m) =>
      if |m.payload| > rules.max then Some(TOO_BIG)
      else if m.opcode.Continuation? then Some(INTERNAL_ERROR)
      else if m.opcode.TextData? && !rules.validUtf8(m.payload) then Some(INTERNAL_ERROR)
      else if IsControl(m.opcode) && |m.payload| > 125 then Some(INTERNAL_ERROR)
      else None
  }

  /** The first thing that went wrong: a handler's result, the last frame, or the bytes behind the frames. */
  ghost function Fault(rules: Rules, stream: seq<byte>, seen: seq<Frame>, results: seq<HandlerResult>): Option<nat> {
    if results != [] && ResultFault(rules, results[|results| - 1]).Some? then ResultFault(rules, results[|results| - 1])
    else if seen != [] && FrameFault(rules, seen[..|seen| - 1], seen[|seen| - 1]).Some?
    then FrameFault(rules, seen[..|seen| - 1], seen[|seen| - 1])
    else if seen == Frames(stream, rules.max) then WireFault(ParseClientFrame(Left(stream, rules.max), rules.max))
    else None
  }

  // ----- the invariant -----

  /** What was said last, or is about to be. */
  function Final(c: Conn): Option<Out> {
    if c.output.Some? then c.output else if c.sent != [] then Some(c.sent[|c.sent| - 1]) else None
  }

  ghost predicate Blamed(rules: Rules, stream: seq<byte>, c: Conn, results: seq<HandlerResult>) {
    if c.closeSent then
      Final(c).Some? && (Final(c).value.FailWith? ==> Fault(rules, stream, c.seen, results) == Some(Final(c).value.code))
    else Sound(rules, stream, c, results)
  }

  /** Nothing has gone wrong so far. */
  ghost predicate Sound(rules: Rules, stream: seq<byte>, c: Conn, results: seq<HandlerResult>) {
    && (results != [] ==> ResultFault(rules, results[|results| - 1]).None?)
    && (!c.closing ==> Left(stream, rules.max) == Left(c.input + c.unread, rules.max))
    && (!c.closing && c.seen != [] ==> FrameFault(rules, c.seen[..|c.seen| - 1], c.seen[|c.seen| - 1]).None?)
  }

  // ----- frames -----

  /** A frame is handled as its fault says. */
  ghost predicate HandledAs(d: Conn, fault: Option<nat>) {
    if fault.Some? then d.closeSent && d.output == Some(FailWith(fault.value))
    else d.closeSent ==> d.output.Some? && d.output.value.CloseWith?
  }

  lemma DispatchFault(rules: Rules, c: Conn, m: Message)
    requires Idle(c) && !c.closeSent
    ensures HandledAs(Dispatch(rules, c, m),
                      if |m.payload| > rules.max then Some(TOO_BIG)
                      else if m.opcode.TextData? && !rules.validUtf8(m.payload) then Some(INVALID_TEXT) else None)
  {
  }

  lemma ContinuationFault(rules: Rules, c: Conn, f: Frame)
    requires Assembled(rules, c) && Idle(c) && !Over(c) && f.opcode.Continuation?
    ensures HandledAs(Handle(rules, c.(seen := c.seen + [f]), f), FrameFault(rules, c.seen, f))
  {
    hide Messages, Tail, DataFrames, Dispatch, NoClose;
    var begun := Tail(rules, DataFrames(c.seen)).value;
    PayloadsAppend(begun, f);
    hide Payloads;
    if c.fragment.Some? {
      var m := c.fragment.value;
      assert (begun + [f])[0] == begun[0];
      DispatchFault(rules, c.(seen := c.seen + [f], fragment := None), m.(payload := m.payload + f.payload));
    }
  }

  lemma OpeningFault(rules: Rules, c: Conn, f: Frame)
    requires Assembled(rules, c) && Idle(c) && !Over(c) && |f.payload| <= rules.max && (f.opcode.TextData? || f.opcode.BinaryData?)
    ensures HandledAs(Handle(rules, c.(seen := c.seen + [f]), f), FrameFault(rules, c.seen, f))
  {
    hide Messages, Tail, DataFrames, Dispatch, NoClose;
    var begun := Tail(rules, DataFrames(c.seen)).value;
    if c.fragment.None? {
      assert begun + [f] == [f] && [f][1..] == [];
      assert Payloads([f]) == f.payload + Payloads([]) == f.payload;
      DispatchFault(rules, c.(seen := c.seen + [f]), Message(f.opcode, f.payload));
    }
    hide Payloads;
  }

  lemma ControlFault(rules: Rules, c: Conn, f: Frame)
    requires Idle(c) && !Over(c) && IsControl(f.opcode)
    ensures HandledAs(Handle(rules, c.(seen := c.seen + [f]), f), FrameFault(rules, c.seen, f))
  {
    CloseIsGood(rules, f.payload);
    hide GoodClose, CloseAllowed, Tail;
  }

  lemma HandleFault(rules: Rules, c: Conn, f: Frame)
    requires Assembled(rules, c) && Idle(c) && !Over(c) && |f.payload| <= rules.max
    ensures HandledAs(Handle(rules, c.(seen := c.seen + [f]), f), FrameFault(rules, c.seen, f))
  {
    hide Assembled, FrameFault, HandledAs, Handle;
    match f.opcode
    case Continuation => ContinuationFault(rules, c, f);
    case TextData => OpeningFault(rules, c, f);
    case BinaryData => OpeningFault(rules, c, f);
    case _ => ControlFault(rules, c, f);
  }

  /** A broken beginning of what is left is broken for good. */
  lemma BrokenFault(rules: Rules, stream: seq<byte>, c: Conn, results: seq<HandlerResult>)
    requires OnStream(rules, stream, c) && !Over(c) && Sound(rules, stream, c, results)
    requires ParseClientFrame(c.input, rules.max).Broken?
    ensures Fault(rules, stream, c.seen, results) == WireFault(ParseClientFrame(c.input, rules.max))
  {
    BrokenEnds(rules, stream, c);
    ParseAppend(c.input, c.unread, rules.max);
    hide ParseClientFrame, Frames, FrameFault, ResultFault;
  }

  lemma LeftAfter(c: Conn, max: nat)
    requires ParseClientFrame(c.input, max).Got?
    ensures var n := ParseClientFrame(c.input, max).consumed;
            Left(c.input + c.unread, max) == Left(c.input[n..] + c.unread, max)
  {
    ParseAppend(c.input, c.unread, max);
    var n := ParseClientFrame(c.input, max).consumed;
    assert (c.input + c.unread)[n..] == c.input[n..] + c.unread;
    hide ParseClientFrame;
  }

  /** The state after one frame has been taken off the buffer. */
  lemma TakenInv(rules: Rules, stream: seq<byte>, c: Conn, f: Frame, n: nat)
    requires Inv(rules, stream, c) && Idle(c) && !Over(c) && ParseClientFrame(c.input, rules.max) == Got(f, n)
    ensures var d := Handle(rules, Took(c, f, n), f);
            && Inv(rules, stream, d) && d.seen == c.seen + [f]
            && (!Over(d) ==> d.input == c.input[n..] && d.unread == c.unread)
            && HandledAs(d, FrameFault(rules, c.seen, f))
  {
    hide ParseClientFrame, Frames, Messages, Tail, DataFrames, Handle, FrameFault, HandledAs;
    GotSize(c.input, rules.max);
    TakeFrame(rules, stream, c);
    var cut := c.(input := c.input[n..]);
    HandleStep(rules, cut, f);
    HandleFault(rules, cut, f);
    assert cut.(seen := cut.seen + [f]) == Took(c, f, n);
    assert c.seen + [f] <= Frames(stream, rules.max);
  }

  lemma HandleBlamed(rules: Rules, stream: seq<byte>, c: Conn, d: Conn, f: Frame, results: seq<HandlerResult>)
    requires Sound(rules, stream, c, results) && !c.closing && d.seen == c.seen + [f] && HandledAs(d, FrameFault(rules, c.seen, f))
    requires !Over(d) ==> Left(d.input + d.unread, rules.max) == Left(c.input + c.unread, rules.max)
    ensures d.closing || Blamed(rules, stream, d, results)
  {
    assert d.seen[..|d.seen| - 1] == c.seen && d.seen[|d.seen| - 1] == f;
    hide FrameFault, Left, ResultFault;
  }

  lemma NotClosing(rules: Rules, c: Conn, f: Frame)
    requires !c.closing && !c.closeSent
    ensures !Handle(rules, c, f).closing
  {
  }

  lemma {:induction false} ProcessBlamed(rules: Rules, stream: seq<byte>, c: Conn, results: seq<HandlerResult>)
    requires Inv(rules, stream, c) && Blamed(rules, stream, c, results)
    ensures Blamed(rules, stream, Process(rules, c), results)
    decreases |c.input|
  {
    hide ParseClientFrame, Handle, Fault, FrameFault, Left, ResultFault, HandledAs, Frames, Assembled;
    if Idle(c) && !Over(c) {
      match ParseClientFrame(c.input, rules.max)
      case More => NeverOverfull(c.input, rules.max);
      case Broken(_) => BrokenFault(rules, stream, c, results);
      case Got(f, n) =>
        var d := Handle(rules, Took(c, f, n), f);
        TakenInv(rules, stream, c, f, n);
        LeftAfter(c, rules.max);
        NotClosing(rules, Took(c, f, n), f);
        HandleBlamed(rules, stream, c, d, f, results);
        ProcessBlamed(rules, stream, d, results);
    }
  }

  // ----- every event -----

  lemma CompleteBlamed(rules: Rules, stream: seq<byte>, c: Conn, result: HandlerResult, results: seq<HandlerResult>)
    requires Inv(rules, stream, c) && Blamed(rules, stream, c, results) && !c.closing && c.pending
    ensures Blamed(rules, stream, Complete(rules, c, result), results + [result])
  {
    var more, d := results + [result], c.(pending := false);
    assert more[|more| - 1] == result;
    hide Process, FrameFault, Left, Frames, Messages, Tail, DataFrames, Collects;
    if result.Silent? {
      ProcessBlamed(rules, stream, d, more);
    } else {
      ResultHandled(rules, c, result);
      var e := Complete(rules, c, result);
      hide Complete, ResultFault;
      ResultBlamed(rules, stream, c, e, result, results);
    }
  }

  /** A result is handled as its fault says; an answer that closes is no failure. */
  ghost predicate AnsweredAs(c: Conn, e: Conn, fault: Option<nat>) {
    && e.seen == c.seen
    && (fault.Some? ==> e.closeSent && e.output == Some(FailWith(fault.value)))
    && (fault.None? && e.closeSent ==> e.output.Some? && e.output.value.Answer?)
    && (fault.None? && !e.closeSent ==> e.closing == c.closing && e.input == c.input && e.unread == c.unread)
  }

  lemma ResultHandled(rules: Rules, c: Conn, result: HandlerResult)
    requires !c.closing && !c.closeSent && c.pending && !result.Silent?
    ensures AnsweredAs(c, Complete(rules, c, result), ResultFault(rules, result))
  {
  }

  lemma ResultBlamed(rules: Rules, stream: seq<byte>, c: Conn, e: Conn, result: HandlerResult, results: seq<HandlerResult>)
    requires Sound(rules, stream, c, results) && !c.closing && AnsweredAs(c, e, ResultFault(rules, result))
    ensures Blamed(rules, stream, e, results + [result])
  {
    hide FrameFault, Left, Frames, ResultFault;
    var more := results + [result];
    assert more[|more| - 1] == result;
  }

  lemma StepBlamed(rules: Rules, stream: seq<byte>, c: Conn, e: Event, results: seq<HandlerResult>)
    requires Inv(rules, stream, c) && Blamed(rules, stream, c, results)
    ensures Blamed(rules, stream, Step(rules, c, e), results + ResultBy(c, e))
  {
    hide Process, Fault, FrameFault, Left, ResultFault, Frames, Messages, Tail, DataFrames, Collects;
    assert results + [] == results;
    if !c.closing {
      match e
      case Arrive(count) =>
        if Idle(c) && c.unread != [] {
          var n := if count == 0 then 1 else if count < |c.unread| then count else |c.unread|;
          var d := c.(input := c.input + c.unread[..n], unread := c.unread[n..]);
          assert d.input + d.unread == c.input + c.unread;
          ProcessBlamed(rules, stream, d, results);
        }
      case WriteDone =>
        if c.output.Some? && !c.closeAfterWrite {
          ProcessBlamed(rules, stream, c.(output := None, sent := c.sent + [c.output.value], closeAfterWrite := false), results);
        }
      case HandlerDone(result) =>
        if c.pending { hide Complete; CompleteBlamed(rules, stream, c, result, results); }
      case PeerGone =>
    }
  }

  lemma {:induction false} RunBlamed(rules: Rules, stream: seq<byte>, c: Conn, events: seq<Event>, results: seq<HandlerResult>)
    requires Inv(rules, stream, c) && Drained(rules, c) && Blamed(rules, stream, c, results)
    ensures Blamed(rules, stream, Run(rules, c, events), results + Results(rules, c, events))
    decreases |events|
  {
    hide Inv, Drained, Blamed, Step, ResultBy;
    if events == [] {
      assert results + [] == results;
    } else {
      StepBlamed(rules, stream, c, events[0], results);
      RunOne(rules, c, events);
      RunInv(rules, stream, c, events[..1]);
      var d, more := Step(rules, c, events[0]), results + ResultBy(c, events[0]);
      RunBlamed(rules, stream, d, events[1..], more);
      assert more + Results(rules, d, events[1..]) == results + (ResultBy(c, events[0]) + Results(rules, d, events[1..]));
    }
  }

  /** THE RIGHT CLOSE CODE.  In every run, a session that fails says why: 1011 for what its handler did, 1002 for frames
      or bytes against the protocol, 1007 for text that is none, 1009 for what is too big. */
  lemma FailsForCause(rules: Rules, stream: seq<byte>, events: seq<Event>)
    ensures var c := Run(rules, Fresh(stream), events);
            var results := Results(rules, Fresh(stream), events);
            && (c.closeSent ==> Final(c).Some?)
            && (c.closeSent && Final(c).value.FailWith? ==> Fault(rules, stream, c.seen, results) == Some(Final(c).value.code))
  {
    hide Run, Results, Fault, Sound, Inv, Drained, Fresh;
    FreshInv(rules, stream);
    FreshBlamed(rules, stream);
    RunBlamed(rules, stream, Fresh(stream), events, []);
    var results := Results(rules, Fresh(stream), events);
    assert [] + results == results;
  }

  /** A session that lost its socket is over at once, and nothing changes an ended session. */
  lemma {:induction false} OverForGood(rules: Rules, c: Conn, events: seq<Event>)
    ensures Step(rules, c, PeerGone).closing
    ensures c.closing ==> Run(rules, c, events) == c
    decreases |events|
  {
    if events != [] {
      OverForGood(rules, c, events[1..]);
    }
  }

  lemma FreshBlamed(rules: Rules, stream: seq<byte>)
    ensures Blamed(rules, stream, Fresh(stream), [])
  {
    assert [] + stream == stream;
    hide Left, FrameFault;
  }
}
