/** Every message of the peer reaches the handler whole, once and in order, as section 5.4 of
    RFC 6455 puts messages together from frames. */
module WebSocketOrder {
  import opened Text
  import opened WebSocketWire
  import opened WebSocket

  // ----- the reference: frames of a byte stream, messages of a frame sequence -----

  /** The frames at the front of a byte stream, as far as they are complete and well formed. */
  function Frames(stream: seq<byte>, max: nat): seq<Frame>
    decreases |stream|
  {
    match ParseClientFrame(stream, max)
    case Got(f, n) => [f] + Frames(stream[n..], max)
    case _ => []
  }

  /** The data frames before the first close frame; pings and pongs do not count. */
  function DataFrames(frames: seq<Frame>): seq<Frame> {
    if frames == [] then []
    else if frames[0].opcode.CloseFrame? then []
    else (if IsControl(frames[0].opcode) then [] else [frames[0]]) + DataFrames(frames[1..])
  }

  /** The number of frames up to and including the first final one; one more than all if none is. */
  function FirstFinal(frames: seq<Frame>): (k: nat)
    ensures 1 <= k <= |frames| + 1
  {
    if frames == [] then 1
    else if frames[0].final then 1
    else 1 + FirstFinal(frames[1..])
  }

  function Payloads(frames: seq<Frame>): seq<byte> {
    if frames == [] then [] else frames[0].payload + Payloads(frames[1..])
  }

  /** A message: a data frame, then continuation frames, within the limit, and UTF-8 if it is text. */
  ghost predicate IsMessage(rules: Rules, group: seq<Frame>) {
    && group != []
    && !group[0].opcode.Continuation?
    && (forall k :: 1 <= k < |group| ==> group[k].opcode.Continuation?)
    && |Payloads(group)| <= rules.max
    && (group[0].opcode.TextData? ==> rules.validUtf8(Payloads(group)))
  }

  /** The messages that data frames make up, to the first group that is not a message. */
  ghost function Messages(rules: Rules, frames: seq<Frame>): seq<Message>
    decreases |frames|
  {
    var k := FirstFinal(frames);
    if k > |frames| || !IsMessage(rules, frames[..k]) then []
    else [Message(frames[0].opcode, Payloads(frames[..k]))] + Messages(rules, frames[k..])
  }

  /** The frames after the last whole message, or None once a group was not a message. */
  ghost function Tail(rules: Rules, frames: seq<Frame>): Option<seq<Frame>>
    decreases |frames|
  {
    var k := FirstFinal(frames);
    if k > |frames| then Some(frames)
    else if !IsMessage(rules, frames[..k]) then None
    else Tail(rules, frames[k..])
  }

  // ----- one more frame -----

  lemma {:induction false} FirstFinalAppend(frames: seq<Frame>, f: Frame)
    ensures FirstFinal(frames) <= |frames| ==> FirstFinal(frames + [f]) == FirstFinal(frames)
    ensures FirstFinal(frames) > |frames| ==> FirstFinal(frames + [f]) == |frames| + if f.final then 1 else 2
  {
    if frames == [] {
      assert frames + [f] == [f];
      assert [f][1..] == [];
    } else {
      assert (frames + [f])[1..] == frames[1..] + [f];
      FirstFinalAppend(frames[1..], f);
    }
  }

  lemma {:induction false} PayloadsAppend(frames: seq<Frame>, f: Frame)
    ensures Payloads(frames + [f]) == Payloads(frames) + f.payload
  {
    if frames == [] {
      assert frames + [f] == [f];
    } else {
      assert (frames + [f])[1..] == frames[1..] + [f];
      PayloadsAppend(frames[1..], f);
    }
  }

  /** How one more data frame changes the messages: it lengthens the message being collected, or
      completes it, or shows that the group is not a message. */
  lemma {:induction false} OneMore(rules: Rules, frames: seq<Frame>, f: Frame)
    ensures var tail, more := Tail(rules, frames), frames + [f];
            if tail.None? then Messages(rules, more) == Messages(rules, frames) && Tail(rules, more).None?
            else if !f.final then Messages(rules, more) == Messages(rules, frames) && Tail(rules, more) == Some(tail.value + [f])
            else if IsMessage(rules, tail.value + [f]) then
              && Messages(rules, more) ==
                 Messages(rules, frames) + [Message((tail.value + [f])[0].opcode, Payloads(tail.value + [f]))]
              && Tail(rules, more) == Some([])
            else Messages(rules, more) == Messages(rules, frames) && Tail(rules, more).None?
    decreases |frames|
  {
    var k, more := FirstFinal(frames), frames + [f];
    FirstFinalAppend(frames, f);
    if k > |frames| {
      if f.final {
        assert more[..|frames| + 1] == more && more[|frames| + 1..] == [];
      }
    } else {
      assert more[..k] == frames[..k] && more[k..] == frames[k..] + [f];
      if IsMessage(rules, frames[..k]) {
        OneMore(rules, frames[k..], f);
      }
    }
  }

  lemma {:induction false} DataAppend(frames: seq<Frame>, f: Frame)
    requires forall k :: 0 <= k < |frames| ==> !frames[k].opcode.CloseFrame?
    ensures DataFrames(frames + [f]) == DataFrames(frames) + (if IsControl(f.opcode) then [] else [f])
  {
    if frames == [] {
      assert frames + [f] == [f];
      assert [f][1..] == [];
    } else {
      assert (frames + [f])[1..] == frames[1..] + [f];
      DataAppend(frames[1..], f);
    }
  }

  // ----- the invariant -----

  /** The session is finished, or finishing: nothing that still arrives will be looked at. */
  predicate Over(c: Conn) {
    c.closing || c.closeSent
  }

  /** The fragment buffer holds exactly the frames of the message under way. */
  ghost predicate Collects(rules: Rules, fragment: Option<Message>, tail: seq<Frame>) {
    match fragment
    case None => tail == []
    case Some(m) =>
      && tail != [] && m.opcode == tail[0].opcode && !m.opcode.Continuation? && !IsControl(m.opcode)
      && (forall k :: 1 <= k < |tail| ==> tail[k].opcode.Continuation?)
      && m.payload == Payloads(tail) && |m.payload| <= rules.max
  }

  ghost predicate NoClose(frames: seq<Frame>) {
    forall k :: 0 <= k < |frames| ==> !frames[k].opcode.CloseFrame?
  }

  /** What was delivered is what the frames seen make up, and collection has not gone wrong. */
  ghost predicate Assembled(rules: Rules, c: Conn) {
    && c.delivered == Messages(rules, DataFrames(c.seen))
    && (!Over(c) ==>
          && NoClose(c.seen)
          && Tail(rules, DataFrames(c.seen)).Some?
          && Collects(rules, c.fragment, Tail(rules, DataFrames(c.seen)).value))
  }

  /** One thing at a time: no output while the handler runs, and the closing frame is last. */
  ghost predicate OneThing(c: Conn) {
    && (c.pending ==> c.output.None?)
    && (c.closeSent && !c.closing ==> c.output.Some? && c.closeAfterWrite && !c.pending)
    && (c.closeAfterWrite ==> c.closeSent)
  }

  ghost predicate OnStream(rules: Rules, stream: seq<byte>, c: Conn) {
    if Over(c) then c.seen <= Frames(stream, rules.max)
    else Frames(stream, rules.max) == c.seen + Frames(c.input + c.unread, rules.max)
  }

  ghost predicate Inv(rules: Rules, stream: seq<byte>, c: Conn) {
    Assembled(rules, c) && OneThing(c) && OnStream(rules, stream, c)
  }

  lemma GotSize(bytes: seq<byte>, max: nat)
    requires ParseClientFrame(bytes, max).Got?
    ensures |ParseClientFrame(bytes, max).frame.payload| <= max
  {
    hide ReadHeader;
  }

  /** The guard against a peer that never completes a frame cannot trigger: a frame within the
      limit is complete before the input grows that far. */
  lemma NeverOverfull(bytes: seq<byte>, max: nat)
    requires ParseClientFrame(bytes, max).More?
    ensures |bytes| < max + 14
  {
  }

  // ----- one frame -----

  /** A data frame that completes nothing, or completes a group that is not a message. */
  lemma Refused(rules: Rules, c: Conn, f: Frame, code: nat)
    requires Assembled(rules, c) && !Over(c) && !IsControl(f.opcode)
    requires f.final ==> !IsMessage(rules, Tail(rules, DataFrames(c.seen)).value + [f])
    ensures Assembled(rules, Fail(c.(seen := c.seen + [f]), code))
  {
    DataAppend(c.seen, f);
    OneMore(rules, DataFrames(c.seen), f);
  }

  /** A data frame that goes with the message under way: it is collected or completes it. */
  lemma Accepted(rules: Rules, c: Conn, f: Frame, grown: Message)
    requires Assembled(rules, c) && Idle(c) && !Over(c) && !IsControl(f.opcode)
    requires Collects(rules, Some(grown), Tail(rules, DataFrames(c.seen)).value + [f])
    ensures !f.final ==> Assembled(rules, c.(seen := c.seen + [f], fragment := Some(grown)))
    ensures f.final ==> Assembled(rules, Dispatch(rules, c.(seen := c.seen + [f], fragment := None), grown))
  {
    DataAppend(c.seen, f);
    OneMore(rules, DataFrames(c.seen), f);
    hide Messages, Tail, DataFrames, Payloads;
  }

  lemma ContinuationStep(rules: Rules, c: Conn, f: Frame)
    requires Assembled(rules, c) && Idle(c) && !Over(c) && f.opcode.Continuation?
    ensures Assembled(rules, Handle(rules, c.(seen := c.seen + [f]), f))
  {
    hide Messages, Tail, DataFrames, Dispatch;
    var tail := Tail(rules, DataFrames(c.seen)).value;
    PayloadsAppend(tail, f);
    hide Payloads;
    if c.fragment.None? {
      Refused(rules, c, f, 1002);
    } else if |c.fragment.value.payload| + |f.payload| > rules.max {
      Refused(rules, c, f, 1009);
    } else {
      var m := c.fragment.value;
      Accepted(rules, c, f, m.(payload := m.payload + f.payload));
    }
  }

  lemma OpeningStep(rules: Rules, c: Conn, f: Frame)
    requires Assembled(rules, c) && Idle(c) && !Over(c) && |f.payload| <= rules.max
    requires f.opcode.TextData? || f.opcode.BinaryData?
    ensures Assembled(rules, Handle(rules, c.(seen := c.seen + [f]), f))
  {
    hide Messages, Tail, DataFrames, Dispatch;
    var tail := Tail(rules, DataFrames(c.seen)).value;
    if c.fragment.Some? {
      assert (tail + [f])[|tail|] == f;
      Refused(rules, c, f, 1002);
    } else {
      assert tail + [f] == [f] && [f][1..] == [];
      assert Payloads([f]) == f.payload + Payloads([f][1..]) == f.payload;
      Accepted(rules, c, f, Message(f.opcode, f.payload));
    }
  }

  /** A control frame adds nothing to the data frames; unless it closes, collection goes on. */
  lemma ControlSeen(rules: Rules, c: Conn, f: Frame, d: Conn)
    requires Assembled(rules, c) && !Over(c) && IsControl(f.opcode)
    requires d.seen == c.seen + [f] && d.delivered == c.delivered
    requires Over(d) || (d.fragment == c.fragment && !f.opcode.CloseFrame?)
    ensures Assembled(rules, d)
  {
    DataAppend(c.seen, f);
    assert DataFrames(c.seen) + [] == DataFrames(c.seen);
    hide Messages, Tail, DataFrames, Collects;
  }

  /** Control frames in between never disturb the message being collected. */
  lemma ControlStep(rules: Rules, c: Conn, f: Frame)
    requires Assembled(rules, c) && Idle(c) && !Over(c) && IsControl(f.opcode)
    ensures Assembled(rules, Handle(rules, c.(seen := c.seen + [f]), f))
    ensures f.opcode.Ping? || f.opcode.Pong? ==> Handle(rules, c.(seen := c.seen + [f]), f).fragment == c.fragment
  {
    var d := Handle(rules, c.(seen := c.seen + [f]), f);
    hide Assembled, GoodClose;
    assert f.opcode.CloseFrame? ==> Over(d);
    hide Handle;
    ControlSeen(rules, c, f, d);
  }

  lemma HandleStep(rules: Rules, c: Conn, f: Frame)
    requires Assembled(rules, c) && OneThing(c) && Idle(c) && !Over(c) && |f.payload| <= rules.max
    ensures var d := Handle(rules, c.(seen := c.seen + [f]), f);
            && Assembled(rules, d) && OneThing(d) && d.seen == c.seen + [f] && d.unread == c.unread
            && (d.input == c.input || Over(d))
  {
    hide Assembled;
    match f.opcode
    case Continuation => ContinuationStep(rules, c, f);
    case TextData => OpeningStep(rules, c, f);
    case BinaryData => OpeningStep(rules, c, f);
    case _ => ControlStep(rules, c, f);
  }

  // ----- the buffer -----

  /** An idle session has no whole frame left in its buffer. */
  ghost predicate Drained(rules: Rules, c: Conn) {
    Idle(c) ==> ParseClientFrame(c.input, rules.max).More?
  }

  lemma TakeFrame(rules: Rules, stream: seq<byte>, c: Conn)
    requires OnStream(rules, stream, c) && !Over(c) && ParseClientFrame(c.input, rules.max).Got?
    ensures var p := ParseClientFrame(c.input, rules.max);
            && Frames(stream, rules.max) == c.seen + [p.frame] + Frames(c.input[p.consumed..] + c.unread, rules.max)
  {
    var p := ParseClientFrame(c.input, rules.max);
    ParseAppend(c.input, c.unread, rules.max);
    assert (c.input + c.unread)[p.consumed..] == c.input[p.consumed..] + c.unread;
  }

  lemma FailInv(rules: Rules, stream: seq<byte>, c: Conn, code: nat)
    requires Inv(rules, stream, c)
    ensures Inv(rules, stream, Fail(c, code)) && Drained(rules, Fail(c, code))
  {
  }

  lemma {:induction false} ProcessInv(rules: Rules, stream: seq<byte>, c: Conn)
    requires Inv(rules, stream, c)
    ensures Inv(rules, stream, Process(rules, c)) && Drained(rules, Process(rules, c))
    decreases |c.input|
  {
    hide ParseClientFrame, Frames, Messages, Tail, DataFrames, Handle;
    if Idle(c) {
      match ParseClientFrame(c.input, rules.max)
      case More => NeverOverfull(c.input, rules.max);
      case Broken(_) => FailInv(rules, stream, c, 1002); FailInv(rules, stream, c, 1009);
      case Got(f, n) =>
        GotSize(c.input, rules.max);
        TakeFrame(rules, stream, c);
        var cut := c.(input := c.input[n..]);
        HandleStep(rules, cut, f);
        var d := Handle(rules, Took(c, f, n), f);
        assert cut.(seen := cut.seen + [f]) == Took(c, f, n);
        assert c.seen + [f] <= Frames(stream, rules.max);
        ProcessInv(rules, stream, d);
    }
  }

  // ----- whole runs -----

  lemma ReceiveInv(rules: Rules, stream: seq<byte>, c: Conn, count: nat)
    requires Inv(rules, stream, c) && Drained(rules, c)
    ensures Inv(rules, stream, Receive(rules, c, count)) && Drained(rules, Receive(rules, c, count))
  {
    hide ParseClientFrame, Frames, Process;
    if Idle(c) && c.unread != [] {
      var n := if count == 0 then 1 else if count < |c.unread| then count else |c.unread|;
      var d := c.(input := c.input + c.unread[..n], unread := c.unread[n..]);
      assert d.input + d.unread == c.input + c.unread;
      ProcessInv(rules, stream, d);
    }
  }

  lemma FlushedInv(rules: Rules, stream: seq<byte>, c: Conn)
    requires Inv(rules, stream, c) && Drained(rules, c)
    ensures Inv(rules, stream, Flushed(rules, c)) && Drained(rules, Flushed(rules, c))
  {
    hide ParseClientFrame, Frames, Process;
    if !c.closing && c.output.Some? && !c.closeAfterWrite {
      ProcessInv(rules, stream, c.(output := None, sent := c.sent + [c.output.value], closeAfterWrite := false));
    }
  }

  lemma CompleteInv(rules: Rules, stream: seq<byte>, c: Conn, result: HandlerResult)
    requires Inv(rules, stream, c) && Drained(rules, c)
    ensures Inv(rules, stream, Complete(rules, c, result)) && Drained(rules, Complete(rules, c, result))
  {
    hide ParseClientFrame, Frames, Process, Messages, Tail, DataFrames;
    if !c.closing && c.pending {
      var d := c.(pending := false);
      FailInv(rules, stream, d, 1009);
      FailInv(rules, stream, d, 1011);
      ProcessInv(rules, stream, d);
    }
  }

  lemma {:induction false} RunInv(rules: Rules, stream: seq<byte>, c: Conn, events: seq<Event>)
    requires Inv(rules, stream, c) && Drained(rules, c)
    ensures Inv(rules, stream, Run(rules, c, events)) && Drained(rules, Run(rules, c, events))
    decreases |events|
  {
    hide ParseClientFrame, Frames, Receive, Flushed, Complete, Messages, Tail, DataFrames;
    if events != [] {
      match events[0] {
        case Arrive(count) => ReceiveInv(rules, stream, c, count);
        case WriteDone => FlushedInv(rules, stream, c);
        case HandlerDone(result) => CompleteInv(rules, stream, c, result);
        case PeerGone =>
      }
      RunInv(rules, stream, Step(rules, c, events[0]), events[1..]);
    }
  }

  lemma FreshInv(rules: Rules, stream: seq<byte>)
    ensures Inv(rules, stream, Fresh(stream)) && Drained(rules, Fresh(stream))
  {
    assert [] + stream == stream;
    assert [] + Frames(stream, rules.max) == Frames(stream, rules.max);
  }

  lemma {:induction false} MessagesGrow(rules: Rules, frames: seq<Frame>, more: seq<Frame>)
    ensures Messages(rules, frames) <= Messages(rules, frames + more)
    decreases |more|
  {
    hide Messages, Tail, IsMessage;
    if more == [] {
      assert frames + more == frames;
    } else {
      OneMore(rules, frames, more[0]);
      MessagesGrow(rules, frames + [more[0]], more[1..]);
      assert frames + [more[0]] + more[1..] == frames + more;
    }
  }

  lemma {:induction false} DataGrow(frames: seq<Frame>, more: seq<Frame>)
    ensures DataFrames(frames) <= DataFrames(frames + more)
  {
    if frames != [] && !frames[0].opcode.CloseFrame? {
      assert (frames + more)[1..] == frames[1..] + more;
      DataGrow(frames[1..], more);
    }
  }

  lemma {:induction false} MessagesFit(rules: Rules, frames: seq<Frame>)
    ensures forall k :: 0 <= k < |Messages(rules, frames)| ==> |Messages(rules, frames)[k].payload| <= rules.max
    decreases |frames|
  {
    var k := FirstFinal(frames);
    if k <= |frames| && IsMessage(rules, frames[..k]) {
      MessagesFit(rules, frames[k..]);
    }
  }

  /** WEBSOCKET REASSEMBLY.  For every byte stream of the peer and every interleaving of reads,
      writes and handlers, the handler has been given, one at a time and in wire order, the first
      messages that the frames of the stream make up, none of them over the limit. */
  lemma Reassembly(rules: Rules, stream: seq<byte>, events: seq<Event>)
    ensures var c := Run(rules, Fresh(stream), events);
            && c.delivered <= Messages(rules, DataFrames(Frames(stream, rules.max)))
            && (forall k :: 0 <= k < |c.delivered| ==> |c.delivered[k].payload| <= rules.max)
            && (c.pending ==> c.output.None?)
  {
    FreshInv(rules, stream);
    RunInv(rules, stream, Fresh(stream), events);
    var c, frames := Run(rules, Fresh(stream), events), Frames(stream, rules.max);
    assert c.seen <= frames;
    DataGrow(c.seen, frames[|c.seen|..]);
    assert c.seen + frames[|c.seen|..] == frames;
    var d, e := DataFrames(c.seen), DataFrames(frames);
    MessagesGrow(rules, d, e[|d|..]);
    assert d + e[|d|..] == e;
    MessagesFit(rules, d);
  }

  // ----- sessions that end -----

  /** No continuation of these frames is a message any more. */
  ghost predicate Hopeless(rules: Rules, group: seq<Frame>) {
    && group != []
    && (|| group[0].opcode.Continuation?
        || (exists k :: 1 <= k < |group| && !group[k].opcode.Continuation?)
        || |Payloads(group)| > rules.max)
  }

  ghost predicate Doomed(rules: Rules, tail: Option<seq<Frame>>) {
    tail.None? || Hopeless(rules, tail.value)
  }

  /** What the frames make up is settled: they were closed, or they broke the rules. */
  ghost predicate Decided(rules: Rules, frames: seq<Frame>) {
    !NoClose(frames) || Doomed(rules, Tail(rules, DataFrames(frames)))
  }

  lemma HopelessStays(rules: Rules, group: seq<Frame>, f: Frame)
    requires Hopeless(rules, group)
    ensures Hopeless(rules, group + [f]) && !IsMessage(rules, group + [f])
  {
    PayloadsAppend(group, f);
    var more := group + [f];
    assert more[0] == group[0];
    if k :| 1 <= k < |group| && !group[k].opcode.Continuation? {
      assert more[k] == group[k];
    }
  }

  /** Frames after a broken group add no message. */
  lemma {:induction false} DoomedForGood(rules: Rules, frames: seq<Frame>, more: seq<Frame>)
    requires Doomed(rules, Tail(rules, frames))
    ensures Messages(rules, frames + more) == Messages(rules, frames)
    decreases |more|
  {
    hide Messages, Tail, IsMessage, Hopeless;
    if more == [] {
      assert frames + more == frames;
    } else {
      var tail := Tail(rules, frames);
      OneMore(rules, frames, more[0]);
      if tail.Some? {
        HopelessStays(rules, tail.value, more[0]);
      }
      DoomedForGood(rules, frames + [more[0]], more[1..]);
      assert frames + [more[0]] + more[1..] == frames + more;
    }
  }

  lemma {:induction false} DataConcat(frames: seq<Frame>, more: seq<Frame>)
    requires NoClose(frames)
    ensures DataFrames(frames + more) == DataFrames(frames) + DataFrames(more)
  {
    if frames == [] {
      assert frames + more == more;
    } else {
      var rest := frames[1..];
      assert (frames + more)[1..] == rest + more && (frames + more)[0] == frames[0];
      assert NoClose(rest);
      DataConcat(rest, more);
      hide NoClose, IsControl;
      var first := if IsControl(frames[0].opcode) then [] else [frames[0]];
      assert first + (DataFrames(rest) + DataFrames(more)) == first + DataFrames(rest) + DataFrames(more);
    }
  }

  lemma {:induction false} DataAfterClose(frames: seq<Frame>, more: seq<Frame>, k: nat)
    requires k < |frames| && frames[k].opcode.CloseFrame?
    ensures DataFrames(frames + more) == DataFrames(frames)
  {
    assert (frames + more)[0] == frames[0];
    if !frames[0].opcode.CloseFrame? {
      assert (frames + more)[1..] == frames[1..] + more;
      DataAfterClose(frames[1..], more, k - 1);
    }
  }

  lemma DecidedForGood(rules: Rules, frames: seq<Frame>, more: seq<Frame>)
    requires Decided(rules, frames)
    ensures Messages(rules, DataFrames(frames + more)) == Messages(rules, DataFrames(frames))
  {
    hide DataFrames, Messages, Tail, Doomed;
    if NoClose(frames) {
      DataConcat(frames, more);
      DoomedForGood(rules, DataFrames(frames), DataFrames(more));
    } else {
      var k :| 0 <= k < |frames| && frames[k].opcode.CloseFrame?;
      DataAfterClose(frames, more, k);
    }
  }

  /** A data frame the session fails on dooms the group it belongs to. */
  lemma FailedData(rules: Rules, c: Conn, f: Frame)
    requires Assembled(rules, c) && Idle(c) && !Over(c) && |f.payload| <= rules.max && !IsControl(f.opcode)
    requires Over(Handle(rules, c.(seen := c.seen + [f]), f))
    ensures var group := Tail(rules, DataFrames(c.seen)).value + [f];
            if f.final then !IsMessage(rules, group) else Hopeless(rules, group)
  {
    hide Messages, Tail, DataFrames, NoClose;
    var tail := Tail(rules, DataFrames(c.seen)).value;
    PayloadsAppend(tail, f);
    var group := tail + [f];
    assert group[|tail|] == f;
    if tail != [] {
      assert group[0] == tail[0];
    } else {
      assert Payloads(tail) == [] && [] + f.payload == f.payload;
    }
    hide Payloads;
  }

  lemma HandleDecides(rules: Rules, c: Conn, f: Frame)
    requires Assembled(rules, c) && Idle(c) && !Over(c) && |f.payload| <= rules.max
    requires Over(Handle(rules, c.(seen := c.seen + [f]), f))
    ensures Decided(rules, c.seen + [f])
  {
    hide Messages, Tail, DataFrames, Hopeless, IsMessage, Handle;
    if f.opcode.CloseFrame? {
      assert (c.seen + [f])[|c.seen|] == f;
    } else if IsControl(f.opcode) {
      ControlGoesOn(rules, c.(seen := c.seen + [f]), f);
    } else {
      FailedData(rules, c, f);
      DataAppend(c.seen, f);
      OneMore(rules, DataFrames(c.seen), f);
    }
  }

  lemma ControlGoesOn(rules: Rules, c: Conn, f: Frame)
    requires f.opcode.Ping? || f.opcode.Pong?
    ensures Over(Handle(rules, c, f)) == Over(c)
  {
  }

  /** Once the session is over, the messages of the whole stream are those of the frames seen. */
  ghost predicate Ended(rules: Rules, stream: seq<byte>, c: Conn) {
    Over(c) ==> Messages(rules, DataFrames(Frames(stream, rules.max))) == Messages(rules, DataFrames(c.seen))
  }

  /** Bytes that are not a frame end the frame sequence, whatever follows. */
  lemma BrokenEnds(rules: Rules, stream: seq<byte>, c: Conn)
    requires OnStream(rules, stream, c) && !Over(c) && ParseClientFrame(c.input, rules.max).Broken?
    ensures Frames(stream, rules.max) == c.seen
  {
    ParseAppend(c.input, c.unread, rules.max);
    hide ParseClientFrame;
    assert c.seen + [] == c.seen;
  }

  lemma {:induction false} ProcessEnded(rules: Rules, stream: seq<byte>, c: Conn)
    requires Inv(rules, stream, c) && Ended(rules, stream, c)
    ensures Ended(rules, stream, Process(rules, c))
    decreases |c.input|
  {
    hide ParseClientFrame, Frames, Messages, Tail, DataFrames, Handle, Decided;
    if Idle(c) && !Over(c) {
      match ParseClientFrame(c.input, rules.max)
      case More => NeverOverfull(c.input, rules.max);
      case Broken(_) => BrokenEnds(rules, stream, c);
      case Got(f, n) =>
        GotSize(c.input, rules.max);
        TakeFrame(rules, stream, c);
        var cut := c.(input := c.input[n..]);
        HandleStep(rules, cut, f);
        var d := Handle(rules, Took(c, f, n), f);
        assert cut.(seen := cut.seen + [f]) == Took(c, f, n);
        var rest := Frames(c.input[n..] + c.unread, rules.max);
        assert c.seen + [f] <= c.seen + [f] + rest;
        if Over(d) {
          HandleDecides(rules, cut, f);
          DecidedForGood(rules, c.seen + [f], rest);
        }
        ProcessEnded(rules, stream, d);
    }
  }

  /** A handler result with which the server itself ends the session. */
  predicate Finishes(rules: Rules, result: HandlerResult) {
    match result
    case Threw => true
    case Silent => false
    case Replied(m) =>
      || |m.payload| > rules.max || m.opcode.Continuation? || m.opcode.CloseFrame?
      || (m.opcode.TextData? && !rules.validUtf8(m.payload))
      || (IsControl(m.opcode) && |m.payload| > 125)
  }

  /** Neither the socket nor a handler cuts the session short: only the peer's frames end it. */
  predicate Uninterrupted(rules: Rules, events: seq<Event>) {
    forall k :: 0 <= k < |events| ==> !events[k].PeerGone? && (events[k].HandlerDone? ==> !Finishes(rules, events[k].result))
  }

  lemma StepEnded(rules: Rules, stream: seq<byte>, c: Conn, e: Event)
    requires Inv(rules, stream, c) && Drained(rules, c) && Ended(rules, stream, c)
    requires !e.PeerGone? && (e.HandlerDone? ==> !Finishes(rules, e.result))
    ensures Ended(rules, stream, Step(rules, c, e))
  {
    hide ParseClientFrame, Frames, Process, Messages, Tail, DataFrames;
    if !c.closing {
      match e
      case Arrive(count) =>
        if Idle(c) && c.unread != [] {
          var n := if count == 0 then 1 else if count < |c.unread| then count else |c.unread|;
          var d := c.(input := c.input + c.unread[..n], unread := c.unread[n..]);
          assert d.input + d.unread == c.input + c.unread;
          ProcessEnded(rules, stream, d);
        }
      case WriteDone =>
        if c.output.Some? && !c.closeAfterWrite {
          ProcessEnded(rules, stream, c.(output := None, sent := c.sent + [c.output.value], closeAfterWrite := false));
        }
      case HandlerDone(result) =>
        if c.pending {
          ProcessEnded(rules, stream, c.(pending := false));
        }
    }
  }

  lemma {:induction false} RunEnded(rules: Rules, stream: seq<byte>, c: Conn, events: seq<Event>)
    requires Inv(rules, stream, c) && Drained(rules, c) && Ended(rules, stream, c) && Uninterrupted(rules, events)
    ensures Ended(rules, stream, Run(rules, c, events))
    decreases |events|
  {
    hide Inv, Drained, Ended, Step, Finishes;
    if events != [] {
      StepEnded(rules, stream, c, events[0]);
      assert Run(rules, c, events[..1]) == Step(rules, c, events[0]) by { RunOne(rules, c, events); }
      RunInv(rules, stream, c, events[..1]);
      RunEnded(rules, stream, Step(rules, c, events[0]), events[1..]);
    }
  }

  lemma RunOne(rules: Rules, c: Conn, events: seq<Event>)
    requires events != []
    ensures Run(rules, c, events[..1]) == Step(rules, c, events[0])
  {
    var one := events[..1];
    assert one[1..] == [];
  }

  /** EXACTLY THE MESSAGES.  When the peer's own frames have ended the session, by a close frame or by
      the first violation, or when everything has arrived and the open session is idle, the
      messages delivered are exactly those that the frames of the stream make up. */
  lemma AllDelivered(rules: Rules, stream: seq<byte>, events: seq<Event>)
    requires var c := Run(rules, Fresh(stream), events);
             if Over(c) then Uninterrupted(rules, events) else c.unread == [] && Idle(c)
    ensures Run(rules, Fresh(stream), events).delivered == Messages(rules, DataFrames(Frames(stream, rules.max)))
  {
    FreshInv(rules, stream);
    RunInv(rules, stream, Fresh(stream), events);
    var c := Run(rules, Fresh(stream), events);
    if Over(c) {
      RunEnded(rules, stream, Fresh(stream), events);
    } else {
      hide Run;
      assert c.input + [] == c.input;
      assert c.seen + [] == c.seen;
    }
  }

  // ----- streams a client writes -----

  predicate Masks(masks: seq<seq<byte>>, n: nat) {
    |masks| == n && forall k :: 0 <= k < n ==> |masks[k]| == 4
  }

  /** Every frame is masked with a key of its own (section 5.3 of RFC 6455). */
  function EncodeAll(frames: seq<Frame>, masks: seq<seq<byte>>): seq<byte>
    requires Masks(masks, |frames|)
  {
    if frames == [] then [] else EncodeClientFrame(frames[0], masks[0]) + EncodeAll(frames[1..], masks[1..])
  }

  /** The frames of an encoded frame sequence are those frames. */
  lemma {:induction false} FramesOfClient(frames: seq<Frame>, masks: seq<seq<byte>>, max: nat)
    requires Masks(masks, |frames|)
    requires forall k :: 0 <= k < |frames| ==> Sendable(frames[k]) && |frames[k].payload| <= max
    ensures Frames(EncodeAll(frames, masks), max) == frames
  {
    hide ParseClientFrame, EncodeClientFrame, Sendable;
    if frames == [] {
      EmptyIsMore(max);
    } else {
      var first, rest := EncodeClientFrame(frames[0], masks[0]), EncodeAll(frames[1..], masks[1..]);
      FrameRoundTrip(frames[0], masks[0], rest, max);
      assert (first + rest)[|first|..] == rest;
      FramesOfClient(frames[1..], masks[1..], max);
    }
  }

  lemma EmptyIsMore(max: nat)
    ensures ParseClientFrame([], max) == More
  {
  }
}
