/** An HTTP/2 request as its client sends it, read off the callbacks alone: which of them the session accepts, and
    which request it hands on at the end (sections 8.1 and 8.3 of RFC 9113). */
module Http2Assembly {
  import opened Text
  import opened Http2Requests

  // ----- what was sent on a stream -----

  /** The value sent last under this name, empty if there is none. */
  function LastValue(events: seq<Event>, id: int, name: string): string {
    if events == [] then ""
    else
      var e := events[|events| - 1];
      if e.Header? && e.id == id && e.name == name then e.value else LastValue(events[..|events| - 1], id, name)
  }

  /** The regular fields in order, the authority among them as the host. */
  function RegularFields(events: seq<Event>, id: int): seq<Field> {
    if events == [] then []
    else
      var e, front := events[|events| - 1], RegularFields(events[..|events| - 1], id);
      if !e.Header? || e.id != id then front
      else if e.name == ":authority" then front + [("host", e.value)]
      else if e.name != "" && e.name[0] == ':' then front
      else front + [(e.name, e.value)]
  }

  function BodyText(events: seq<Event>, id: int): string {
    if events == [] then ""
    else
      var e, front := events[|events| - 1], BodyText(events[..|events| - 1], id);
      if e.Chunk? && e.id == id then front + e.bytes else front
  }

  // ----- what may be sent -----

  /** This field may come after those sent: it fits the header list and, unless it is a pseudo field, is none of those
      HTTP/2 forbids and keeps the fields within the request. */
  predicate FieldAllowed(l: Limits, sent: nat, name: string, value: string) {
    && sent + |name| + |value| <= l.headerList
    && ((name != "" && name[0] == ':') ||
        (&& name !in {"connection", "keep-alive", "proxy-connection", "transfer-encoding", "upgrade"}
         && (name == "te" ==> value == "trailers")
         && sent + |name| + |value| <= l.request))
  }

  predicate Allowed(l: Limits, sent: seq<Event>, e: Event, id: int) {
    match e
    case Header(_, name, value) => FieldAllowed(l, FieldBytes(sent, id), name, value)
    case Chunk(_, bytes) =>
      (if FieldBytes(sent, id) < l.request then FieldBytes(sent, id) else l.request) + BodyBytes(sent, id) + |bytes| <= l.request
    case Frame(_, endStream) => !endStream
    case _ => false
  }

  /** Every callback of the stream was allowed when it came, whatever happened on other streams. */
  predicate Sendable(l: Limits, events: seq<Event>, id: int) {
    forall k :: 0 <= k < |events| && events[k].id == id ==> Allowed(l, events[..k], events[k], id)
  }

  // ----- the session accepts just that -----

  lemma {:induction false} GathersLast(l: Limits, s: State, events: seq<Event>, e: Event, id: int)
    ensures Gathers(l, s, events + [e], id) <==>
            && Gathers(l, s, events, id)
            && (e.id == id ==> (e.Header? || e.Chunk? || e == Frame(id, false)) && Accepts(l, Run(l, s, events), e))
    decreases |events|
  {
    hide Step, Accepts;
    if events == [] {
      assert [e][1..] == [];
      assert events + [e] == [e];
    } else {
      assert (events + [e])[0] == events[0] && (events + [e])[1..] == events[1..] + [e];
      GathersLast(l, Step(l, s, events[0]), events[1..], e, id);
    }
  }

  lemma SendableLast(l: Limits, front: seq<Event>, e: Event, id: int)
    ensures Sendable(l, front + [e], id) <==> Sendable(l, front, id) && (e.id == id ==> Allowed(l, front, e, id))
  {
    hide Allowed;
    var events := front + [e];
    assert events[..|front|] == front && events[|front|] == e;
    assert forall k :: 0 <= k < |front| ==> events[..k] == front[..k] && events[k] == front[k];
  }

  lemma AcceptsAllowed(l: Limits, s: State, front: seq<Event>, e: Event, id: int)
    requires id in s.streams && e.id == id && (e.Header? || e.Chunk? || e == Frame(id, false))
    requires s.streams[id].headerBytes == FieldBytes(front, id) <= l.headerList && |s.streams[id].body| == BodyBytes(front, id)
    ensures Accepts(l, s, e) <==> Allowed(l, front, e, id)
  {
    hide FieldBytes, BodyBytes;
    if e.Chunk? {
      ChunkFits(l, s.streams[id], e.bytes);
    }
  }

  lemma {:induction false} FieldBytesLast(front: seq<Event>, e: Event, id: int)
    ensures FieldBytes(front + [e], id) == FieldBytes(front, id) + if e.Header? && e.id == id then |e.name| + |e.value| else 0
  {
    if front == [] {
      assert front + [e] == [e];
    } else {
      assert (front + [e])[0] == front[0] && (front + [e])[1..] == front[1..] + [e];
      FieldBytesLast(front[1..], e, id);
    }
  }

  /** ACCEPTED EXACTLY.  The callbacks of a stream are all accepted if and only if what they carry is allowed. */
  lemma {:induction false} AcceptedExactly(l: Limits, s: State, events: seq<Event>, id: int)
    ensures Gathers(l, Step(l, s, Begin(id, true)), events, id) <==> Sendable(l, events, id)
    ensures Sendable(l, events, id) ==> FieldBytes(events, id) <= l.headerList
    decreases |events|
  {
    if events != [] {
      var front, e := events[..|events| - 1], events[|events| - 1];
      assert events == front + [e];
      var begun := Step(l, s, Begin(id, true));
      AcceptedExactly(l, s, front, id);
      GathersLast(l, begun, front, e, id);
      SendableLast(l, front, e, id);
      FieldBytesLast(front, e, id);
      if Gathers(l, begun, front, id) && e.id == id {
        CountsWhatWasSent(l, begun, front, id);
        if e.Header? || e.Chunk? || e == Frame(id, false) {
          AcceptsAllowed(l, Run(l, begun, front), front, e, id);
        }
      }
      hide Gathers, Sendable, Run, Accepts;
    }
  }

  // ----- nothing after the end -----

  /** The stream is not there, or has been judged. */
  ghost predicate Done(s: State, id: int) {
    id in s.streams ==> s.streams[id].completed
  }

  /** The requests handed on for this stream. */
  function For(ready: seq<Request>, id: int): seq<Request> {
    if ready == [] then []
    else For(ready[..|ready| - 1], id) + if ready[|ready| - 1].id == id then [ready[|ready| - 1]] else []
  }

  lemma StepDone(l: Limits, s: State, e: Event, id: int)
    requires Done(s, id) && e != Begin(id, true)
    ensures Done(Step(l, s, e), id) && For(Step(l, s, e).ready, id) == For(s.ready, id)
  {
    if e.Frame? && e.endStream && e.id in s.streams {
      var out := OnEnd(e.id, s.streams[e.id]).1;
      if out == [] {
        assert s.ready + out == s.ready;
      } else {
        assert (s.ready + out)[..|s.ready|] == s.ready;
      }
    }
  }

  /** ENDED IS ENDED.  Once a stream has ended, well formed or not, nothing is handed on for it any more, whatever follows,
      until it is opened again. */
  lemma {:induction false} NothingAfterEnd(l: Limits, s: State, events: seq<Event>, id: int)
    requires Done(s, id) && forall k :: 0 <= k < |events| ==> events[k] != Begin(id, true)
    ensures For(Run(l, s, events).ready, id) == For(s.ready, id)
    decreases |events|
  {
    if events != [] {
      StepDone(l, s, events[0], id);
      hide Step, Done, For;
      NothingAfterEnd(l, Step(l, s, events[0]), events[1..], id);
    }
  }

  lemma EndIsDone(l: Limits, s: State, id: int)
    ensures Done(Step(l, s, Frame(id, true)), id) && Done(Step(l, s, Close(id)), id)
  {
  }

  // ----- and hands on what it spells -----

  lemma {:induction false} AssembledLast(s: Stream, events: seq<Event>, e: Event, id: int)
    ensures Assembled(s, events + [e], id) == if e.id == id then Added(Assembled(s, events, id), e) else Assembled(s, events, id)
    decreases |events|
  {
    hide Added;
    if events == [] {
      assert [e][1..] == [];
      assert events + [e] == [e];
    } else {
      assert (events + [e])[0] == events[0] && (events + [e])[1..] == events[1..] + [e];
      AssembledLast(if events[0].id == id then Added(s, events[0]) else s, events[1..], e, id);
    }
  }

  ghost predicate Spells(s: Stream, events: seq<Event>, id: int) {
    && s.verb == LastValue(events, id, ":method") && s.path == LastValue(events, id, ":path")
    && s.headers == RegularFields(events, id) && s.body == BodyText(events, id)
  }

  lemma AddedSpells(s: Stream, front: seq<Event>, e: Event, id: int)
    requires Spells(s, front, id)
    ensures Spells(if e.id == id then Added(s, e) else s, front + [e], id)
  {
    hide LastValue, RegularFields, BodyText;
    LastOf(front, e, id, ":method");
    LastOf(front, e, id, ":path");
    RegularLast(front, e, id);
    BodyLast(front, e, id);
  }

  lemma LastOf(front: seq<Event>, e: Event, id: int, name: string)
    ensures LastValue(front + [e], id, name) == if e.Header? && e.id == id && e.name == name then e.value else LastValue(front, id, name)
  {
    var events := front + [e];
    assert events[..|events| - 1] == front && events[|events| - 1] == e;
  }

  lemma RegularLast(front: seq<Event>, e: Event, id: int)
    ensures RegularFields(front + [e], id) ==
            RegularFields(front, id) +
            (if !e.Header? || e.id != id then []
             else if e.name == ":authority" then [("host", e.value)]
             else if e.name != "" && e.name[0] == ':' then []
             else [(e.name, e.value)])
  {
    var events := front + [e];
    assert events[..|events| - 1] == front && events[|events| - 1] == e;
  }

  lemma BodyLast(front: seq<Event>, e: Event, id: int)
    ensures BodyText(front + [e], id) == BodyText(front, id) + if e.Chunk? && e.id == id then e.bytes else ""
  {
    var events := front + [e];
    assert events[..|events| - 1] == front && events[|events| - 1] == e;
  }

  lemma {:induction false} AssembledSpells(events: seq<Event>, id: int)
    ensures Spells(Assembled(NEW, events, id), events, id)
  {
    if events != [] {
      var front, e := events[..|events| - 1], events[|events| - 1];
      assert events == front + [e];
      AssembledSpells(front, id);
      AssembledLast(NEW, front, e, id);
      AddedSpells(Assembled(NEW, front, id), front, e, id);
    }
  }

  /** WHOLE REQUESTS.  A stream that sends what it may, interleaved with any others, hands on exactly the request its
      own fields and chunks spell, or none when that has no known method or no path. */
  lemma RequestIsWhole(l: Limits, s: State, events: seq<Event>, id: int)
    requires Sendable(l, events, id)
    ensures var before := Run(l, Step(l, s, Begin(id, true)), events);
            var verb, path := LastValue(events, id, ":method"), LastValue(events, id, ":path");
            Step(l, before, Frame(id, true)).ready ==
              before.ready +
              (if verb in {"GET", "POST", "PUT", "PATCH", "DELETE", "OPTIONS", "HEAD"} && path != "" && path[0] == '/'
               then [Request(id, verb, path, RegularFields(events, id), BodyText(events, id))] else [])
  {
    AcceptedExactly(l, s, events, id);
    AssembledSpells(events, id);
    HandsOnAssembled(l, s, events, id);
    hide Run, Gathers, Step, Sendable, Assembled, LastValue, RegularFields, BodyText;
  }
}
