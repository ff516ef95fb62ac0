/** What the session says: one pong for every ping, one answer for every message its handler replied to, in
    the order of the peer's frames, and at most one close frame, which is the last word. */
module WebSocketOutput {
  import opened Text
  import opened WebSocketWire
  import opened WebSocket
  import opened WebSocketOrder

  // ----- the reference: what frames and handler results call for -----

  /** The frame that completes a message, so that a handler has its turn. */
  predicate IsTurn(f: Frame) {
    !IsControl(f.opcode) && f.final
  }

  function Turns(frames: seq<Frame>): nat {
    if frames == [] then 0 else (if IsTurn(frames[0]) then 1 else 0) + Turns(frames[1..])
  }

  /** Pongs and answers, frame by frame; a handler that is still running, or whose result ends the session,
      holds up everything behind its message. */
  function Dialogue(rules: Rules, frames: seq<Frame>, results: seq<HandlerResult>): seq<Out>
    decreases |frames|
  {
    if frames == [] then []
    else if frames[0].opcode.Ping? then [PongOf(frames[0].payload)] + Dialogue(rules, frames[1..], results)
    else if !IsTurn(frames[0]) then Dialogue(rules, frames[1..], results)
    else if results == [] || Finishes(rules, results[0]) then []
    else AnswerTo(results[0]) + Dialogue(rules, frames[1..], results[1..])
  }

  function AnswerTo(result: HandlerResult): seq<Out> {
    if result.Replied? then [Answer(result.message)] else []
  }

  predicate IsClose(out: Out) {
    out.CloseWith? || out.FailWith? || (out.Answer? && out.message.opcode.CloseFrame?)
  }

  /** The result this event reports, if a handler is running. */
  function ResultBy(c: Conn, e: Event): seq<HandlerResult> {
    if e.HandlerDone? && !c.closing && c.pending then [e.result] else []
  }

  function Results(rules: Rules, c: Conn, events: seq<Event>): seq<HandlerResult>
    decreases |events|
  {
    if events == [] then [] else ResultBy(c, events[0]) + Results(rules, Step(rules, c, events[0]), events[1..])
  }

  /** Everything written, and what waits to be. */
  function Log(c: Conn): seq<Out> {
    c.sent + if c.output.Some? then [c.output.value] else []
  }

  // ----- one more frame, one more result -----

  ghost predicate AllGood(rules: Rules, results: seq<HandlerResult>) {
    forall k :: 0 <= k < |results| ==> !Finishes(rules, results[k])
  }

  lemma {:induction false} TurnsAppend(frames: seq<Frame>, f: Frame)
    ensures Turns(frames + [f]) == Turns(frames) + if IsTurn(f) then 1 else 0
  {
    if frames == [] {
      assert frames + [f] == [f] && [f][1..] == [];
    } else {
      assert (frames + [f])[1..] == frames[1..] + [f];
      TurnsAppend(frames[1..], f);
    }
  }

  /** With every turn answered, one more frame calls for a pong at most. */
  lemma {:induction false} DialogueFrame(rules: Rules, frames: seq<Frame>, results: seq<HandlerResult>, f: Frame)
    requires AllGood(rules, results) && Turns(frames) == |results|
    ensures Dialogue(rules, frames + [f], results)
         == Dialogue(rules, frames, results) + if f.opcode.Ping? then [PongOf(f.payload)] else []
    decreases |frames|
  {
    hide Finishes, IsTurn;
    if frames == [] {
      assert frames + [f] == [f] && [f][1..] == [];
    } else {
      assert (frames + [f])[0] == frames[0] && (frames + [f])[1..] == frames[1..] + [f];
      var turn := !frames[0].opcode.Ping? && IsTurn(frames[0]);
      PingIsNoTurn(frames[0]);
      DialogueFrame(rules, frames[1..], if turn then results[1..] else results, f);
    }
  }

  lemma PingIsNoTurn(f: Frame)
    ensures f.opcode.Ping? ==> !IsTurn(f)
  {
  }

  /** The result of the last turn adds its answer, or nothing when it ends the session. */
  lemma {:induction false} DialogueResult(rules: Rules, frames: seq<Frame>, results: seq<HandlerResult>, r: HandlerResult)
    requires AllGood(rules, results) && Turns(frames) == |results| + 1 && IsTurn(frames[|frames| - 1])
    ensures Dialogue(rules, frames, results + [r])
         == Dialogue(rules, frames, results) + if Finishes(rules, r) then [] else AnswerTo(r)
    decreases |frames|
  {
    hide Finishes, IsTurn, AnswerTo;
    PingIsNoTurn(frames[0]);
    var more := results + [r];
    if |frames| == 1 {
      assert frames[1..] == [] && results == [] && more[1..] == [];
    } else if IsTurn(frames[0]) {
      assert results != [] by { LastTurnCounts(frames[1..]); }
      assert more[0] == results[0] && more[1..] == results[1..] + [r];
      DialogueResult(rules, frames[1..], results[1..], r);
    } else {
      DialogueResult(rules, frames[1..], results, r);
    }
  }

  lemma {:induction false} LastTurnCounts(frames: seq<Frame>)
    requires frames != [] && IsTurn(frames[|frames| - 1])
    ensures Turns(frames) >= 1
  {
    if |frames| > 1 {
      LastTurnCounts(frames[1..]);
    }
  }

  /** None of this is a close frame. */
  lemma {:induction false} DialogueStaysOpen(rules: Rules, frames: seq<Frame>, results: seq<HandlerResult>)
    ensures forall k :: 0 <= k < |Dialogue(rules, frames, results)| ==> !IsClose(Dialogue(rules, frames, results)[k])
    decreases |frames|
  {
    if frames != [] {
      DialogueStaysOpen(rules, frames[1..], results);
      if results != [] {
        DialogueStaysOpen(rules, frames[1..], results[1..]);
      }
    }
  }

  // ----- the invariant -----

  /** A close frame with its reason: it echoes the peer's, is the handler's own, or reports a failure. */
  ghost predicate LastWord(rules: Rules, seen: seq<Frame>, results: seq<HandlerResult>, out: Out) {
    && IsClose(out)
    && (out.CloseWith? ==>
          && seen != [] && seen[|seen| - 1].opcode.CloseFrame?
          && var payload := seen[|seen| - 1].payload;
             GoodClose(rules, payload) && out.payload == if payload == [] then [3, 232] else payload)
    && (out.Answer? ==> results != [] && results[|results| - 1] == Replied(out.message))
    && (out.FailWith? ==> out.code in {1002, 1007, 1009, 1011})
  }

  ghost predicate Spoken(rules: Rules, c: Conn, results: seq<HandlerResult>) {
    var talk := Dialogue(rules, c.seen, results);
    if c.closeSent then
      |Log(c)| == |talk| + 1 && Log(c)[..|talk|] == talk && LastWord(rules, c.seen, results, Log(c)[|talk|])
    else
      && Log(c) == talk && AllGood(rules, results)
      && Turns(c.seen) == |results| + (if c.pending then 1 else 0)
      && (c.pending ==> c.seen != [] && IsTurn(c.seen[|c.seen| - 1]))
  }

  /** Nothing cut the session short: it is closing only once its last word is out. */
  ghost predicate SaidAll(c: Conn) {
    c.closing ==> c.closeSent && c.output.None?
  }

  // ----- one frame -----

  /** The session has failed, from c on. */
  ghost predicate Failed(c: Conn, d: Conn) {
    && d.closeSent && !d.closing && !d.pending && d.closeAfterWrite && d.sent == c.sent && d.seen == c.seen
    && d.output.Some? && d.output.value.FailWith? && d.output.value.code in {1002, 1007, 1009, 1011}
  }

  /** The session goes on, from c on, with this output and a handler running or not. */
  ghost predicate GoesOn(c: Conn, d: Conn, output: Option<Out>, pending: bool) {
    && !d.closeSent && !d.closing && d.closeAfterWrite == c.closeAfterWrite && d.sent == c.sent && d.seen == c.seen
    && d.output == output && d.pending == pending
  }

  lemma DispatchCases(rules: Rules, c: Conn, m: Message)
    requires Idle(c) && !c.closeSent
    ensures Failed(c, Dispatch(rules, c, m)) || GoesOn(c, Dispatch(rules, c, m), None, true)
  {
  }

  lemma DataCases(rules: Rules, c: Conn, f: Frame)
    requires Idle(c) && !c.closeSent && !IsControl(f.opcode)
    ensures Failed(c, Handle(rules, c, f)) || GoesOn(c, Handle(rules, c, f), None, f.final)
  {
    hide Dispatch;
    var d := c.(fragment := None);
    if f.opcode.Continuation? {
      if c.fragment.Some? {
        var begun := c.fragment.value;
        DispatchCases(rules, d, begun.(payload := begun.payload + f.payload));
      }
    } else {
      DispatchCases(rules, c, Message(f.opcode, f.payload));
    }
  }

  /** What a frame makes an idle session do: fail or close, pong, hand a message on, or nothing yet. */
  lemma HandleCases(rules: Rules, c: Conn, f: Frame)
    requires Idle(c) && !c.closeSent && c.seen != [] && c.seen[|c.seen| - 1] == f
    ensures var d := Handle(rules, c, f);
            && d.sent == c.sent && d.seen == c.seen && !d.closing
            && (if d.closeSent then
                  d.output.Some? && !d.pending && d.closeAfterWrite && LastWord(rules, c.seen, [], d.output.value) && !f.opcode.Ping?
                else
                  && d.closeAfterWrite == c.closeAfterWrite
                  && d.output == (if f.opcode.Ping? then Some(PongOf(f.payload)) else None)
                  && d.pending == IsTurn(f))
  {
    hide GoodClose, Dispatch;
    if !IsControl(f.opcode) {
      DataCases(rules, c, f);
      hide Handle;
    }
  }

  lemma LastWordAnyway(rules: Rules, seen: seq<Frame>, results: seq<HandlerResult>, out: Out)
    requires LastWord(rules, seen, [], out)
    ensures LastWord(rules, seen, results, out)
  {
  }

  lemma HandleSpoken(rules: Rules, c: Conn, f: Frame, results: seq<HandlerResult>)
    requires OneThing(c) && Idle(c) && !c.closeSent && Spoken(rules, c, results)
    ensures var d := Handle(rules, c.(seen := c.seen + [f]), f);
            Spoken(rules, d, results) && OneThing(d) && !d.closing
  {
    var e := c.(seen := c.seen + [f]);
    HandleCases(rules, e, f);
    TurnsAppend(c.seen, f);
    DialogueFrame(rules, c.seen, results, f);
    var d := Handle(rules, e, f);
    hide Handle, Dialogue, Turns, Finishes, IsTurn, LastWord;
    assert c.sent + [] == c.sent;
    if d.closeSent {
      LastWordAnyway(rules, d.seen, results, d.output.value);
    }
  }

  lemma FailSpoken(rules: Rules, c: Conn, code: nat, results: seq<HandlerResult>)
    requires OneThing(c) && Idle(c) && !c.closeSent && Spoken(rules, c, results) && code in {1002, 1007, 1009, 1011}
    ensures Spoken(rules, Fail(c, code), results) && OneThing(Fail(c, code)) && !Fail(c, code).closing
  {
    hide Dialogue, Turns, Finishes, IsTurn;
    assert c.sent + [] == c.sent;
  }

  lemma {:induction false} ProcessSpoken(rules: Rules, c: Conn, results: seq<HandlerResult>)
    requires OneThing(c) && Spoken(rules, c, results) && SaidAll(c)
    ensures Spoken(rules, Process(rules, c), results) && SaidAll(Process(rules, c))
    decreases |c.input|
  {
    hide ParseClientFrame, Handle, Spoken;
    if Idle(c) {
      match ParseClientFrame(c.input, rules.max)
      case More => FailSpoken(rules, c, 1009, results);
      case Broken(_) => FailSpoken(rules, c, 1002, results); FailSpoken(rules, c, 1009, results);
      case Got(f, n) =>
        var cut := c.(input := c.input[n..]);
        assert Spoken(rules, cut, results) by { InputUnspoken(rules, c, cut, results); }
        HandleSpoken(rules, cut, f, results);
        var d := Handle(rules, Took(c, f, n), f);
        assert cut.(seen := cut.seen + [f]) == Took(c, f, n);
        ProcessSpoken(rules, d, results);
    }
  }

  /** Bytes read or not yet read make no difference to what was said. */
  lemma InputUnspoken(rules: Rules, c: Conn, d: Conn, results: seq<HandlerResult>)
    requires Spoken(rules, c, results) && d == c.(input := d.input, unread := d.unread)
    ensures Spoken(rules, d, results)
  {
  }

  // ----- every event -----

  lemma FlushedSpoken(rules: Rules, c: Conn, results: seq<HandlerResult>)
    requires OneThing(c) && Spoken(rules, c, results) && SaidAll(c)
    ensures Spoken(rules, Flushed(rules, c), results) && SaidAll(Flushed(rules, c))
  {
    hide Process, Dialogue, Turns, Finishes, IsTurn, LastWord;
    if !c.closing && c.output.Some? {
      var d := c.(output := None, sent := c.sent + [c.output.value], closeAfterWrite := false);
      assert Log(d) == Log(c) by { assert d.sent + [] == d.sent; }
      if !c.closeAfterWrite {
        ProcessSpoken(rules, d, results);
      }
    }
  }

  lemma CompleteSpoken(rules: Rules, c: Conn, result: HandlerResult, results: seq<HandlerResult>)
    requires OneThing(c) && Spoken(rules, c, results) && SaidAll(c) && !c.closing && c.pending
    ensures Spoken(rules, Complete(rules, c, result), results + [result]) && SaidAll(Complete(rules, c, result))
  {
    var more, d := results + [result], c.(pending := false);
    DialogueResult(rules, c.seen, results, result);
    assert !Finishes(rules, result) ==> AllGood(rules, more);
    assert c.sent + [] == c.sent;
    hide Process, Dialogue, Turns, IsTurn, AllGood;
    if result.Silent? {
      assert Log(c) + [] == Log(c);
      assert Spoken(rules, d, more);
      hide Spoken;
      ProcessSpoken(rules, d, more);
    } else if Finishes(rules, result) {
      FinishingResult(rules, d, result);
      var e := Complete(rules, c, result);
      hide Complete, Finishes;
      assert Log(e) == c.sent + [e.output.value];
    }
  }

  /** A result that ends the session puts the last word out. */
  lemma FinishingResult(rules: Rules, d: Conn, result: HandlerResult)
    requires Finishes(rules, result) && !d.closing && !d.closeSent && !d.pending
    ensures var e := Complete(rules, d.(pending := true), result);
            && e.closeSent && !e.closing && e.sent == d.sent && e.seen == d.seen && e.output.Some?
            && IsClose(e.output.value) && !e.output.value.CloseWith?
            && (e.output.value.Answer? ==> result == Replied(e.output.value.message))
            && (e.output.value.FailWith? ==> e.output.value.code in {1002, 1007, 1009, 1011})
  {
  }

  lemma StepSpoken(rules: Rules, stream: seq<byte>, c: Conn, e: Event, results: seq<HandlerResult>)
    requires Inv(rules, stream, c) && Spoken(rules, c, results)
    ensures Spoken(rules, Step(rules, c, e), results + ResultBy(c, e))
    ensures SaidAll(c) && !e.PeerGone? ==> SaidAll(Step(rules, c, e))
  {
    hide Process, Spoken, Assembled, OnStream;
    assert results + [] == results;
    if !c.closing {
      match e
      case Arrive(count) =>
        if Idle(c) && c.unread != [] {
          var n := if count == 0 then 1 else if count < |c.unread| then count else |c.unread|;
          var d := c.(input := c.input + c.unread[..n], unread := c.unread[n..]);
          InputUnspoken(rules, c, d, results);
          ProcessSpoken(rules, d, results);
        }
      case WriteDone => FlushedSpoken(rules, c, results);
      case HandlerDone(result) =>
        if c.pending { CompleteSpoken(rules, c, result, results); }
      case PeerGone => ClosingUnspoken(rules, c, results);
    }
  }

  lemma ClosingUnspoken(rules: Rules, c: Conn, results: seq<HandlerResult>)
    requires Spoken(rules, c, results)
    ensures Spoken(rules, c.(closing := true), results)
  {
  }

  lemma {:induction false} RunSpoken(rules: Rules, stream: seq<byte>, c: Conn, events: seq<Event>, results: seq<HandlerResult>)
    requires Inv(rules, stream, c) && Drained(rules, c) && Spoken(rules, c, results)
    ensures Spoken(rules, Run(rules, c, events), results + Results(rules, c, events))
    ensures SaidAll(c) && (forall k :: 0 <= k < |events| ==> !events[k].PeerGone?) ==> SaidAll(Run(rules, c, events))
    decreases |events|
  {
    hide Inv, Drained, Spoken, Step, ResultBy, SaidAll;
    if events == [] {
      assert results + [] == results;
    } else {
      StepSpoken(rules, stream, c, events[0], results);
      RunOne(rules, c, events);
      RunInv(rules, stream, c, events[..1]);
      var d, more := Step(rules, c, events[0]), results + ResultBy(c, events[0]);
      RunSpoken(rules, stream, d, events[1..], more);
      assert more + Results(rules, d, events[1..]) == results + (ResultBy(c, events[0]) + Results(rules, d, events[1..]));
    }
  }

  /** WHAT THE PEER HEARS.  In every run, what was written and waits to be is, in the order of the frames taken
      off the stream, one pong with its payload per ping and one answer per message replied to;
      after that at most one close frame, and nothing after it.  Unless the socket is lost, the
      session is closed only when that close frame has been written. */
  lemma Conversation(rules: Rules, stream: seq<byte>, events: seq<Event>)
    ensures var c := Run(rules, Fresh(stream), events);
            var results := Results(rules, Fresh(stream), events);
            var talk := Dialogue(rules, c.seen, results);
            && c.seen <= Frames(stream, rules.max)
            && (forall k :: 0 <= k < |talk| ==> !IsClose(talk[k]))
            && (!c.closeSent ==> Log(c) == talk)
            && (c.closeSent ==>
                  |Log(c)| == |talk| + 1 && Log(c)[..|talk|] == talk && LastWord(rules, c.seen, results, Log(c)[|talk|]))
            && ((forall k :: 0 <= k < |events| ==> !events[k].PeerGone?) && c.closing ==> c.closeSent && c.sent == Log(c))
  {
    FreshInv(rules, stream);
    RunInv(rules, stream, Fresh(stream), events);
    assert Spoken(rules, Fresh(stream), []);
    RunSpoken(rules, stream, Fresh(stream), events, []);
    var c, results := Run(rules, Fresh(stream), events), Results(rules, Fresh(stream), events);
    assert [] + results == results;
    DialogueStaysOpen(rules, c.seen, results);
    hide Run, Results, Dialogue, Turns, LastWord, Frames, Assembled;
    assert c.sent + [] == c.sent;
  }

  /** When everything has arrived and the open session is idle, every ping of the stream has had its pong and
      every message its handler's answer. */
  lemma AllAnswered(rules: Rules, stream: seq<byte>, events: seq<Event>)
    requires var c := Run(rules, Fresh(stream), events);
             !Over(c) && c.unread == [] && Idle(c)
    ensures var c := Run(rules, Fresh(stream), events);
            var results := Results(rules, Fresh(stream), events);
            && c.sent == Dialogue(rules, Frames(stream, rules.max), results)
            && |results| == Turns(Frames(stream, rules.max))
  {
    FreshInv(rules, stream);
    RunInv(rules, stream, Fresh(stream), events);
    assert Spoken(rules, Fresh(stream), []);
    RunSpoken(rules, stream, Fresh(stream), events, []);
    var c, results := Run(rules, Fresh(stream), events), Results(rules, Fresh(stream), events);
    assert [] + results == results;
    assert c.input + [] == c.input && c.seen + [] == c.seen && c.sent + [] == c.sent;
    assert Frames(stream, rules.max) == c.seen;
  }
}
