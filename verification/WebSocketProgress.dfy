/** A session never gets stuck: wherever a run has led, with a peer that goes on and handlers that return, it comes to
    rest, idle with every byte looked at, or closed. */
module WebSocketProgress {
  import opened Text
  import opened WebSocketWire
  import opened WebSocket
  import opened WebSocketOrder

  predicate Resting(c: Conn) {
    c.closing || (Idle(c) && c.unread == [])
  }

  /** What a cooperative world does next. */
  function NextEvent(c: Conn): Event {
    if c.output.Some? then WriteDone else if c.pending then HandlerDone(Silent) else Arrive(1)
  }

  function Distance(c: Conn): nat {
    2 * (|c.input| + |c.unread|) + |c.unread| + if c.output.Some? || c.pending then 1 else 0
  }

  // ----- the frame loop -----

  lemma HandleShrinks(rules: Rules, c: Conn, f: Frame)
    ensures var d := Handle(rules, c, f); |d.input| <= |c.input| && d.unread == c.unread
  {
  }

  /** The loop consumes at least a frame before it makes the session wait. */
  lemma {:induction false} ProcessShrinks(rules: Rules, c: Conn)
    ensures var d := Process(rules, c);
            && |d.input| <= |c.input| && d.unread == c.unread
            && (Idle(c) && !Idle(d) && !Over(d) ==> |d.input| < |c.input|)
    decreases |c.input|
  {
    hide ParseClientFrame, Handle;
    if Idle(c) {
      match ParseClientFrame(c.input, rules.max)
      case More => NeverOverfull(c.input, rules.max);
      case Broken(_) =>
      case Got(f, n) =>
        assert 2 <= n <= |c.input|;
        HandleShrinks(rules, Took(c, f, n), f);
        ProcessShrinks(rules, Handle(rules, Took(c, f, n), f));
    }
  }

  /** Nearer to rest: closed, about to close, or with less to do. */
  ghost predicate Nearer(c: Conn, d: Conn) {
    d.closing || Distance(d) < Distance(c)
  }

  lemma ProcessNears(rules: Rules, c: Conn, d: Conn)
    requires Idle(d) && !Over(d) && d.unread == c.unread && d.input == c.input && (c.output.Some? || c.pending)
    ensures Nearer(c, Process(rules, d)) || Over(Process(rules, d))
  {
    ProcessShrinks(rules, d);
    hide Process;
  }

  lemma ArriveNears(rules: Rules, c: Conn)
    requires Idle(c) && !Over(c) && c.unread != []
    ensures Nearer(c, Receive(rules, c, 1)) || Over(Receive(rules, c, 1))
  {
    var d := c.(input := c.input + c.unread[..1], unread := c.unread[1..]);
    assert |c.unread| == 1 ==> c.unread[..|c.unread|] == c.unread[..1] && c.unread[|c.unread|..] == c.unread[1..];
    ProcessShrinks(rules, d);
    hide Process;
  }

  // ----- to rest -----

  /** The session once its last word is out. */
  lemma LastWordCloses(rules: Rules, c: Conn)
    requires OneThing(c) && c.closeSent && !c.closing
    ensures c.output.Some? && Step(rules, c, WriteDone).closing
  {
    hide Process;
  }

  lemma Nears(rules: Rules, c: Conn)
    requires OneThing(c) && !Over(c) && !Resting(c)
    ensures var d := Step(rules, c, NextEvent(c)); Nearer(c, d) || Over(d)
  {
    if c.output.Some? {
      var d := c.(output := None, sent := c.sent + [c.output.value], closeAfterWrite := false);
      ProcessNears(rules, c, d);
    } else if c.pending {
      ProcessNears(rules, c, c.(pending := false));
    } else {
      ArriveNears(rules, c);
    }
    hide Process;
  }

  lemma RunTwo(rules: Rules, c: Conn, e: Event, rest: seq<Event>)
    ensures Run(rules, c, [e] + rest) == Run(rules, Step(rules, c, e), rest)
  {
    assert ([e] + rest)[0] == e && ([e] + rest)[1..] == rest;
  }

  ghost predicate NoneLost(events: seq<Event>) {
    forall k :: 0 <= k < |events| ==> !events[k].PeerGone? && (events[k].HandlerDone? ==> events[k].result.Silent?)
  }

  lemma {:induction false} Settles(rules: Rules, stream: seq<byte>, c: Conn) returns (events: seq<Event>)
    requires Inv(rules, stream, c) && Drained(rules, c)
    ensures NoneLost(events) && Resting(Run(rules, c, events))
    decreases if Over(c) then 0 else Distance(c) + 1
  {
    if Resting(c) {
      events := [];
    } else if Over(c) {
      LastWordCloses(rules, c);
      events := [WriteDone];
      assert events == [WriteDone] + [];
      RunTwo(rules, c, WriteDone, []);
    } else {
      var e := NextEvent(c);
      Nears(rules, c);
      RunInv(rules, stream, c, [e]);
      RunTwo(rules, c, e, []);
      assert [e] + [] == [e];
      var d := Step(rules, c, e);
      assert Run(rules, d, []) == d;
      hide Inv, Drained, Step, Distance;
      if d.closing {
        events := [e];
      } else {
        var rest := Settles(rules, stream, d);
        events := [e] + rest;
        RunTwo(rules, c, e, rest);
        assert forall k :: 1 <= k < |events| ==> events[k] == rest[k - 1];
      }
    }
  }

  /** NEVER STUCK.  Wherever a run has led, events with a peer that stays and handlers that return exist that bring the
      session to rest: closed with its last word written, or idle with every byte of the stream looked at. */
  lemma NeverStuck(rules: Rules, stream: seq<byte>, events: seq<Event>)
    ensures exists more :: NoneLost(more) && Resting(Run(rules, Run(rules, Fresh(stream), events), more))
  {
    FreshInv(rules, stream);
    RunInv(rules, stream, Fresh(stream), events);
    hide Inv, Drained, Run, Resting;
    var more := Settles(rules, stream, Run(rules, Fresh(stream), events));
  }
}
