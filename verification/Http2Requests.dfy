/** Assembly of HTTP/2 requests from the frame decoder's callbacks, within the configured budgets. */
module Http2Requests {
  import opened Text

  type Field = (string, string)

  datatype Stream = Stream(verb: string, path: string, headers: seq<Field>, headerBytes: nat, body: string,
                           completed: bool)

  datatype Request = Request(id: int, verb: string, path: string, headers: seq<Field>, body: string)

  datatype Limits = Limits(headerList: nat, request: nat)

  datatype State = State(streams: map<int, Stream>, ready: seq<Request>)

  /** A callback; Frame is a HEADERS or DATA frame completely received. */
  datatype Event =
    | Begin(id: int, request: bool)
    | Header(id: int, name: string, value: string)
    | Chunk(id: int, bytes: string)
    | Frame(id: int, endStream: bool)
    | Close(id: int)

  const NEW := Stream("", "", [], 0, "", false)

  predicate ConnectionSpecific(name: string) {
    name in {"connection", "keep-alive", "proxy-connection", "transfer-encoding", "upgrade"}
  }

  predicate KnownMethod(verb: string) {
    verb in {"GET", "POST", "PUT", "PATCH", "DELETE", "OPTIONS", "HEAD"}
  }

  predicate Pseudo(name: string) {
    name != "" && name[0] == ':'
  }

  /** Fits the header-list limit: checked without ever subtracting more than there is. */
  predicate HeaderRoom(l: Limits, used: nat, name: string, value: string) {
    var beforeName: nat := l.headerList - Min(used, l.headerList);
    var beforeValue: nat := l.headerList - Min(used + |name|, l.headerList);
    |name| <= beforeName && |value| <= beforeValue
  }

  /** A regular field the session does not tolerate. */
  predicate Forbidden(l: Limits, used: nat, name: string, value: string) {
    ConnectionSpecific(name) || (name == "te" && value != "trailers") || used > l.request
  }

  function WithField(s: Stream, name: string, value: string): Stream {
    if name == ":method" then s.(verb := value)
    else if name == ":path" then s.(path := value)
    else if name == ":authority" then s.(headers := s.headers + [("host", value)])
    else if Pseudo(name) then s
    else s.(headers := s.headers + [(name, value)])
  }

  /** on_header: the stream afterwards, and whether the callback accepted.  A field rejected for what it
      is has already been charged. */
  function OnHeader(l: Limits, s: Stream, name: string, value: string): (Stream, bool) {
    if !HeaderRoom(l, s.headerBytes, name, value) then (s, false)
    else
      var charged := s.(headerBytes := s.headerBytes + |name| + |value|);
      if !Pseudo(name) && Forbidden(l, charged.headerBytes, name, value) then (charged, false)
      else (WithField(charged, name, value), true)
  }

  /** on_data_chunk. */
  function OnChunk(l: Limits, s: Stream, bytes: string): (Stream, bool) {
    var budget: nat := l.request - Min(s.headerBytes, l.request);
    if |s.body| > budget then (s, false)
    else
      var room: nat := budget - |s.body|;
      if |bytes| > room then (s, false) else (s.(body := s.body + bytes), true)
  }

  /** The end of the request: handed on at most once, and only when it is well formed. */
  function OnEnd(id: int, s: Stream): (Stream, seq<Request>) {
    if s.completed then (s, [])
    else if s.verb == "" || s.path == "" || s.path[0] != '/' || !KnownMethod(s.verb) then (s.(completed := true), [])
    else
      (s.(path := "", headers := [], body := "", completed := true),
       [Request(id, s.verb, s.path, s.headers, s.body)])
  }

  function Step(l: Limits, s: State, e: Event): State {
    match e
    case Begin(id, request) => if request then s.(streams := s.streams[id := NEW]) else s
    case Header(id, name, value) =>
      if id !in s.streams then s
      else s.(streams := s.streams[id := OnHeader(l, s.streams[id], name, value).0])
    case Chunk(id, bytes) =>
      if id !in s.streams then s else s.(streams := s.streams[id := OnChunk(l, s.streams[id], bytes).0])
    case Frame(id, endStream) =>
      if !endStream || id !in s.streams then s
      else
        var (next, out) := OnEnd(id, s.streams[id]);
        s.(streams := s.streams[id := next], ready := s.ready + out)
    case Close(id) => s.(streams := s.streams - {id})
  }

  /** What the callback answers. */
  predicate Accepts(l: Limits, s: State, e: Event) {
    match e
    case Header(id, name, value) => id in s.streams ==> OnHeader(l, s.streams[id], name, value).1
    case Chunk(id, bytes) => id in s.streams ==> OnChunk(l, s.streams[id], bytes).1
    case _ => true
  }

  function Run(l: Limits, s: State, events: seq<Event>): State
    decreases |events|
  {
    if events == [] then s else Run(l, Step(l, s, events[0]), events[1..])
  }

  const START := State(map[], [])

  // ----- budgets -----

  function HeaderSize(headers: seq<Field>): nat {
    if headers == [] then 0
    else HeaderSize(headers[..|headers| - 1]) + |headers[|headers| - 1].0| + |headers[|headers| - 1].1|
  }

  ghost predicate CleanFields(headers: seq<Field>) {
    forall k :: 0 <= k < |headers| ==> !ConnectionSpecific(headers[k].0) && !Pseudo(headers[k].0)
  }

  ghost predicate StreamInv(l: Limits, s: Stream) {
    && s.headerBytes <= l.headerList
    && HeaderSize(s.headers) + |s.verb| + |s.path| <= s.headerBytes
    && |s.body| <= l.request
    && CleanFields(s.headers)
  }

  ghost predicate RequestInv(l: Limits, r: Request) {
    && HeaderSize(r.headers) + |r.verb| + |r.path| <= l.headerList
    && |r.body| <= l.request
    && KnownMethod(r.verb) && r.path != "" && r.path[0] == '/'
    && CleanFields(r.headers)
  }

  ghost predicate Inv(l: Limits, s: State) {
    && (forall id :: id in s.streams ==> StreamInv(l, s.streams[id]))
    && (forall k :: 0 <= k < |s.ready| ==> RequestInv(l, s.ready[k]))
  }

  /** The stream's header fields and body are within the request budget together. */
  predicate Fits(l: Limits, s: Stream) {
    Min(s.headerBytes, l.request) + |s.body| <= l.request
  }

  /** What a field may do to its stream. */
  lemma FieldCases(s: Stream, name: string, value: string)
    ensures var t := WithField(s, name, value);
            || t == s.(verb := value)
            || t == s.(path := value)
            || (t == s.(headers := s.headers + [("host", value)]) && |name| >= 4)
            || t == s
            || (t == s.(headers := s.headers + [(name, value)]) && !Pseudo(name))
  {
  }

  lemma CleanAppend(headers: seq<Field>, field: Field)
    requires CleanFields(headers) && !ConnectionSpecific(field.0) && !Pseudo(field.0)
    ensures CleanFields(headers + [field])
  {
    hide ConnectionSpecific, Pseudo;
  }

  lemma FieldKeeps(l: Limits, s: Stream, name: string, value: string)
    requires StreamInv(l, s) && s.headerBytes + |name| + |value| <= l.headerList
    requires Pseudo(name) || !ConnectionSpecific(name)
    ensures StreamInv(l, WithField(s.(headerBytes := s.headerBytes + |name| + |value|), name, value))
  {
    hide WithField, HeaderSize, CleanFields, ConnectionSpecific, Pseudo;
    var charged := s.(headerBytes := s.headerBytes + |name| + |value|);
    FieldCases(charged, name, value);
    HeaderSizeAppend(s.headers, ("host", value));
    HeaderSizeAppend(s.headers, (name, value));
    HostIsClean();
    CleanAppend(s.headers, ("host", value));
    if !Pseudo(name) {
      CleanAppend(s.headers, (name, value));
    }
  }

  lemma HeaderKeeps(l: Limits, s: Stream, name: string, value: string)
    requires StreamInv(l, s)
    ensures StreamInv(l, OnHeader(l, s, name, value).0)
    ensures OnHeader(l, s, name, value).1 ==> s.headerBytes + |name| + |value| <= l.headerList
  {
    hide WithField, HeaderSize, CleanFields, ConnectionSpecific, Pseudo;
    if HeaderRoom(l, s.headerBytes, name, value) && (Pseudo(name) || !ConnectionSpecific(name)) {
      FieldKeeps(l, s, name, value);
    }
  }

  lemma HeaderSizeAppend(headers: seq<Field>, field: Field)
    ensures HeaderSize(headers + [field]) == HeaderSize(headers) + |field.0| + |field.1|
  {
    assert (headers + [field])[..|headers|] == headers;
  }

  lemma HostIsClean()
    ensures !ConnectionSpecific("host") && !Pseudo("host")
  {
  }

  /** A chunk is accepted exactly when it fits beside the header bytes, capped at the budget. */
  lemma ChunkFits(l: Limits, s: Stream, bytes: string)
    ensures OnChunk(l, s, bytes).1 <==> Min(s.headerBytes, l.request) + |s.body| + |bytes| <= l.request
    ensures OnChunk(l, s, bytes).1 ==> Fits(l, OnChunk(l, s, bytes).0) && OnChunk(l, s, bytes).0.body == s.body + bytes
    ensures !OnChunk(l, s, bytes).1 ==> OnChunk(l, s, bytes).0 == s
  {
  }

  lemma StepInv(l: Limits, s: State, e: Event)
    requires Inv(l, s)
    ensures Inv(l, Step(l, s, e))
  {
    if e.Header? && e.id in s.streams {
      HeaderKeeps(l, s.streams[e.id], e.name, e.value);
      hide OnHeader, StreamInv, RequestInv;
    } else if e.Frame? && e.id in s.streams {
      assert StreamInv(l, s.streams[e.id]);
      EndKeeps(l, e.id, s.streams[e.id]);
      hide OnEnd, StreamInv, RequestInv;
    }
  }

  lemma EndKeeps(l: Limits, id: int, s: Stream)
    requires StreamInv(l, s)
    ensures StreamInv(l, OnEnd(id, s).0)
    ensures |OnEnd(id, s).1| <= 1 && forall k :: 0 <= k < |OnEnd(id, s).1| ==> RequestInv(l, OnEnd(id, s).1[k])
  {
  }

  /** BUDGETS over every sequence of callbacks: no stream is charged more than the header-list limit, no
      body exceeds the request limit, and every request handed on is within both, well formed
      and free of connection-specific and pseudo fields. */
  lemma {:induction false} RunInv(l: Limits, s: State, events: seq<Event>)
    requires Inv(l, s)
    ensures Inv(l, Run(l, s, events))
    decreases |events|
  {
    if events != [] {
      StepInv(l, s, events[0]);
      hide Inv, Step;
      RunInv(l, Step(l, s, events[0]), events[1..]);
    }
  }

  // ----- header bytes and body together -----

  /** A header step keeps the sum within the limit exactly when its bytes fit beside the body. */
  lemma HeaderFits(l: Limits, s: Stream, name: string, value: string)
    requires Fits(l, s)
    ensures Fits(l, OnHeader(l, s, name, value).0) <==> FieldFits(l, s, name, value)
  {
  }

  /** There is no body yet, the field is not even charged, or its bytes fit beside the body. */
  predicate FieldFits(l: Limits, s: Stream, name: string, value: string) {
    || s.body == "" || !HeaderRoom(l, s.headerBytes, name, value)
    || s.headerBytes + |name| + |value| + |s.body| <= l.request
  }

  ghost predicate AllFit(l: Limits, s: State) {
    forall id :: id in s.streams ==> Fits(l, s.streams[id])
  }

  /** Every stream is within the request limit after every event. */
  ghost predicate AlwaysFit(l: Limits, s: State, events: seq<Event>)
    decreases |events|
  {
    AllFit(l, s) && (events == [] || AlwaysFit(l, Step(l, s, events[0]), events[1..]))
  }

  /** Every field that reaches a stream with a body fits beside it. */
  ghost predicate TrailersFit(l: Limits, s: State, events: seq<Event>)
    decreases |events|
  {
    events == [] ||
    (&& (events[0].Header? && events[0].id in s.streams ==>
           FieldFits(l, s.streams[events[0].id], events[0].name, events[0].value))
     && TrailersFit(l, Step(l, s, events[0]), events[1..]))
  }

  /** No field reaches a stream whose body has begun. */
  ghost predicate NoTrailers(l: Limits, s: State, events: seq<Event>)
    decreases |events|
  {
    events == [] ||
    (&& (events[0].Header? && events[0].id in s.streams ==> s.streams[events[0].id].body == "")
     && NoTrailers(l, Step(l, s, events[0]), events[1..]))
  }

  lemma StepFits(l: Limits, s: State, e: Event)
    requires AllFit(l, s)
    ensures AllFit(l, Step(l, s, e)) <==>
              (e.Header? && e.id in s.streams ==> FieldFits(l, s.streams[e.id], e.name, e.value))
  {
    var t := Step(l, s, e);
    if e.id in s.streams {
      var stream := s.streams[e.id];
      if e.Header? {
        HeaderFits(l, stream, e.name, e.value);
        assert t.streams[e.id] == OnHeader(l, stream, e.name, e.value).0;
      } else if e.Chunk? {
        ChunkFits(l, stream, e.bytes);
      }
      assert forall id :: id in t.streams && id != e.id ==> id in s.streams && t.streams[id] == s.streams[id];
      hide OnHeader, OnChunk, Fits;
    }
  }

  /** SUM WITHIN THE LIMIT.  Over every run, header bytes (capped) and body stay within the request limit
      after every event if and only if every field that came after a body fitted beside it; so
      they always do on streams without trailers. */
  lemma {:induction false} RunFits(l: Limits, s: State, events: seq<Event>)
    requires AllFit(l, s)
    ensures AlwaysFit(l, s, events) <==> TrailersFit(l, s, events)
    ensures NoTrailers(l, s, events) ==> TrailersFit(l, s, events)
    decreases |events|
  {
    hide AllFit, Step;
    if events != [] {
      StepFits(l, s, events[0]);
      if AllFit(l, Step(l, s, events[0])) {
        RunFits(l, Step(l, s, events[0]), events[1..]);
      } else {
        NotFit(l, Step(l, s, events[0]), events[1..]);
      }
    }
  }

  lemma NotFit(l: Limits, s: State, events: seq<Event>)
    requires !AllFit(l, s)
    ensures !AlwaysFit(l, s, events)
  {
  }

  /** A request handed on from a stream within the limit is within it, headers and body together. */
  ghost predicate RequestFits(l: Limits, r: Request) {
    r.body == "" || HeaderSize(r.headers) + |r.verb| + |r.path| + |r.body| <= l.request
  }

  ghost predicate RequestsFit(l: Limits, s: State) {
    forall k :: 0 <= k < |s.ready| ==> RequestFits(l, s.ready[k])
  }

  lemma {:induction false} RequestsWithinLimit(l: Limits, s: State, events: seq<Event>)
    requires Inv(l, s) && RequestsFit(l, s) && AlwaysFit(l, s, events)
    ensures RequestsFit(l, Run(l, s, events))
    decreases |events|
  {
    if events != [] {
      StepInv(l, s, events[0]);
      HandedOnFits(l, s, events[0]);
      hide Inv, Step, RequestsFit, AllFit;
      RequestsWithinLimit(l, Step(l, s, events[0]), events[1..]);
    }
  }

  lemma HandedOnFits(l: Limits, s: State, e: Event)
    requires Inv(l, s) && RequestsFit(l, s) && AllFit(l, s)
    ensures RequestsFit(l, Step(l, s, e))
  {
    if e.Frame? && e.endStream && e.id in s.streams {
      assert StreamInv(l, s.streams[e.id]) && Fits(l, s.streams[e.id]);
      hide HeaderSize, CleanFields;
    }
  }

  /** The two together, from the first event on. */
  lemma WithoutTrailers(l: Limits, events: seq<Event>)
    requires NoTrailers(l, START, events)
    ensures AlwaysFit(l, START, events) && RequestsFit(l, Run(l, START, events))
  {
    RunFits(l, START, events);
    RequestsWithinLimit(l, START, events);
  }

  // ----- the sizes a client sends -----

  function FieldBytes(events: seq<Event>, id: int): nat {
    if events == [] then 0
    else (if events[0].Header? && events[0].id == id then |events[0].name| + |events[0].value| else 0)
         + FieldBytes(events[1..], id)
  }

  function BodyBytes(events: seq<Event>, id: int): nat {
    if events == [] then 0
    else (if events[0].Chunk? && events[0].id == id then |events[0].bytes| else 0) + BodyBytes(events[1..], id)
  }

  /** What the callbacks of a stream have counted is what was sent on it. */
  lemma {:induction false} CountsWhatWasSent(l: Limits, s: State, events: seq<Event>, id: int)
    requires id in s.streams && Gathers(l, s, events, id)
    ensures var t := Run(l, s, events);
            && id in t.streams
            && t.streams[id].headerBytes == s.streams[id].headerBytes + FieldBytes(events, id)
            && |t.streams[id].body| == |s.streams[id].body| + BodyBytes(events, id)
    decreases |events|
  {
    if events != [] {
      StepCounts(l, s, events[0], id);
      hide Step, Accepts;
      CountsWhatWasSent(l, Step(l, s, events[0]), events[1..], id);
    }
  }

  lemma StepCounts(l: Limits, s: State, e: Event, id: int)
    requires id in s.streams
    requires e.id == id ==> (e.Header? || e.Chunk? || e == Frame(id, false)) && Accepts(l, s, e)
    ensures var t := Step(l, s, e);
            && id in t.streams
            && t.streams[id].headerBytes ==
               s.streams[id].headerBytes + (if e.Header? && e.id == id then |e.name| + |e.value| else 0)
            && |t.streams[id].body| == |s.streams[id].body| + (if e.Chunk? && e.id == id then |e.bytes| else 0)
  {
  }

  /** TRAILERS, in sizes.  A stream whose callbacks were all accepted is within the request limit if and
      only if it has no body or its field bytes and body bytes, as sent, are within it. */
  lemma SizesDecide(l: Limits, s: State, events: seq<Event>, id: int)
    requires Gathers(l, Step(l, s, Begin(id, true)), events, id)
    ensures var t := Run(l, Step(l, s, Begin(id, true)), events);
            && id in t.streams
            && (Fits(l, t.streams[id]) <==>
                  BodyBytes(events, id) == 0 || FieldBytes(events, id) + BodyBytes(events, id) <= l.request)
  {
    CountsWhatWasSent(l, Step(l, s, Begin(id, true)), events, id);
    hide Run, Gathers;
  }

  /** A request with all its pseudo fields, four body bytes and one trailer field: every callback accepts, and
      the sum is over the limit of forty-four. */
  function TrailerRun(): seq<Event> {
    [Header(1, ":method", "GET"), Header(1, ":scheme", "https"), Header(1, ":authority", "a"), Header(1, ":path", "/"),
     Chunk(1, "abcd"), Header(1, "x", "y")]
  }

  /** Stream 1 has been charged this much for fields and holds this much body. */
  ghost predicate Charged(s: State, fields: nat, body: nat) {
    1 in s.streams && s.streams[1].headerBytes == fields && |s.streams[1].body| == body
  }

  lemma FieldCharged(l: Limits, s: State, name: string, value: string, fields: nat, body: nat)
    requires Charged(s, fields, body) && fields + |name| + |value| <= l.headerList
    requires Pseudo(name) || !Forbidden(l, fields + |name| + |value|, name, value)
    ensures Accepts(l, s, Header(1, name, value))
    ensures Charged(Step(l, s, Header(1, name, value)), fields + |name| + |value|, body)
  {
    hide Pseudo, Forbidden;
  }

  lemma ChunkCharged(l: Limits, s: State, bytes: string, fields: nat, body: nat)
    requires Charged(s, fields, body) && fields + body + |bytes| <= l.request
    ensures Accepts(l, s, Chunk(1, bytes)) && Charged(Step(l, s, Chunk(1, bytes)), fields, body + |bytes|)
  {
  }

  lemma FieldsAllowed(l: Limits, used: nat)
    requires used <= l.request
    ensures Pseudo(":method") && Pseudo(":scheme") && Pseudo(":authority") && Pseudo(":path")
    ensures !Forbidden(l, used, "x", "y")
  {
  }

  lemma StreamOpened(l: Limits)
    ensures Charged(Step(l, START, Begin(1, true)), 0, 0)
  {
  }

  lemma TrailersExceed()
    ensures var l := Limits(64, 44);
            var s := Step(l, START, Begin(1, true));
            && Gathers(l, s, TrailerRun(), 1)
            && 1 in Run(l, s, TrailerRun()).streams && !Fits(l, Run(l, s, TrailerRun()).streams[1])
  {
    var l, e := Limits(64, 44), TrailerRun();
    hide Step, Accepts, Gathers, Run, Charged, Fits;
    StreamOpened(l);
    var s0 := Step(l, START, Begin(1, true));
    var s1, s2, s3, s4 := HeadCharged(l, s0);
    var s5, s6 := TailCharged(l, s4);
    var states := [s0, s1, s2, s3, s4, s5, s6];
    GathersSix(l, states, e);
    Overcharged(l, s6);
  }

  lemma HeadCharged(l: Limits, s0: State) returns (s1: State, s2: State, s3: State, s4: State)
    requires l == Limits(64, 44) && Charged(s0, 0, 0)
    ensures Accepts(l, s0, Header(1, ":method", "GET")) && s1 == Step(l, s0, Header(1, ":method", "GET"))
    ensures Accepts(l, s1, Header(1, ":scheme", "https")) && s2 == Step(l, s1, Header(1, ":scheme", "https"))
    ensures Accepts(l, s2, Header(1, ":authority", "a")) && s3 == Step(l, s2, Header(1, ":authority", "a"))
    ensures Accepts(l, s3, Header(1, ":path", "/")) && s4 == Step(l, s3, Header(1, ":path", "/"))
    ensures Charged(s4, 39, 0)
  {
    FieldsAllowed(l, 41);
    hide Step, Accepts, Pseudo, Forbidden, Charged;
    FieldCharged(l, s0, ":method", "GET", 0, 0);
    s1 := Step(l, s0, Header(1, ":method", "GET"));
    FieldCharged(l, s1, ":scheme", "https", 10, 0);
    s2 := Step(l, s1, Header(1, ":scheme", "https"));
    FieldCharged(l, s2, ":authority", "a", 22, 0);
    s3 := Step(l, s2, Header(1, ":authority", "a"));
    FieldCharged(l, s3, ":path", "/", 33, 0);
    s4 := Step(l, s3, Header(1, ":path", "/"));
  }

  lemma TailCharged(l: Limits, s4: State) returns (s5: State, s6: State)
    requires l == Limits(64, 44) && Charged(s4, 39, 0)
    ensures Accepts(l, s4, Chunk(1, "abcd")) && s5 == Step(l, s4, Chunk(1, "abcd"))
    ensures Accepts(l, s5, Header(1, "x", "y")) && s6 == Step(l, s5, Header(1, "x", "y"))
    ensures Charged(s6, 41, 4)
  {
    FieldsAllowed(l, 41);
    hide Step, Accepts, Pseudo, Forbidden, Charged;
    ChunkCharged(l, s4, "abcd", 39, 0);
    s5 := Step(l, s4, Chunk(1, "abcd"));
    FieldCharged(l, s5, "x", "y", 39, 4);
    s6 := Step(l, s5, Header(1, "x", "y"));
  }

  lemma Overcharged(l: Limits, s: State)
    requires Charged(s, 41, 4) && l.request == 44
    ensures 1 in s.streams && !Fits(l, s.streams[1])
  {
  }

  /** Six callbacks of stream 1, all accepted. */
  lemma GathersSix(l: Limits, s: seq<State>, e: seq<Event>)
    requires |s| == 7 && |e| == 6
    requires forall k :: 0 <= k < 6 ==> (e[k].Header? || e[k].Chunk?) && e[k].id == 1 && Accepts(l, s[k], e[k])
    requires forall k :: 0 <= k < 6 ==> s[k + 1] == Step(l, s[k], e[k])
    ensures Gathers(l, s[0], e, 1) && Run(l, s[0], e) == s[6]
  {
    hide Step, Accepts;
    GathersOne(l, s[5], e, 5);
    GathersOne(l, s[4], e, 4);
    GathersOne(l, s[3], e, 3);
    GathersOne(l, s[2], e, 2);
    GathersOne(l, s[1], e, 1);
    GathersOne(l, s[0], e, 0);
    assert e[6..] == [] && e[0..] == e;
  }

  lemma GathersOne(l: Limits, s: State, e: seq<Event>, k: nat)
    requires k < |e| && (e[k].Header? || e[k].Chunk?) && e[k].id == 1 && Accepts(l, s, e[k])
    ensures Gathers(l, s, e[k..], 1) == Gathers(l, Step(l, s, e[k]), e[k + 1..], 1)
    ensures Run(l, s, e[k..]) == Run(l, Step(l, s, e[k]), e[k + 1..])
  {
    hide Step, Accepts;
    assert e[k..][0] == e[k] && e[k..][1..] == e[k + 1..];
  }

  // ----- at most one request each -----

  function Begins(events: seq<Event>, id: int): nat {
    if events == [] then 0
    else Begins(events[..|events| - 1], id) + (if events[|events| - 1] == Begin(id, true) then 1 else 0)
  }

  function Delivered(ready: seq<Request>, id: int): nat {
    if ready == [] then 0
    else Delivered(ready[..|ready| - 1], id) + (if ready[|ready| - 1].id == id then 1 else 0)
  }

  /** Still able to deliver a request. */
  function Owing(s: State, id: int): nat {
    if id in s.streams && !s.streams[id].completed then 1 else 0
  }

  lemma StepDelivers(l: Limits, s: State, e: Event, id: int)
    ensures var s' := Step(l, s, e);
            Delivered(s'.ready, id) + Owing(s', id)
            <= Delivered(s.ready, id) + Owing(s, id) + (if e == Begin(id, true) then 1 else 0)
  {
    if e.Frame? && e.endStream && e.id in s.streams {
      var out := OnEnd(e.id, s.streams[e.id]).1;
      if out == [] {
        assert s.ready + out == s.ready;
      } else {
        assert (s.ready + out)[..|s.ready|] == s.ready;
      }
    }
  }

  /** ONE REQUEST PER STREAM.  No run hands on more requests for a stream than it was opened times; the
      decoder opens a stream once. */
  lemma {:induction false} AtMostOne(l: Limits, events: seq<Event>, id: int)
    ensures var s := Run(l, START, events);
            Delivered(s.ready, id) + Owing(s, id) <= Begins(events, id)
    decreases |events|
  {
    if events != [] {
      var front, last := events[..|events| - 1], events[|events| - 1];
      AtMostOne(l, front, id);
      RunLast(l, START, front, last);
      assert events == front + [last];
      StepDelivers(l, Run(l, START, front), last, id);
    }
  }

  lemma {:induction false} RunLast(l: Limits, s: State, events: seq<Event>, e: Event)
    ensures Run(l, s, events + [e]) == Step(l, Run(l, s, events), e)
    decreases |events|
  {
    hide Step;
    if events == [] {
      assert [e][1..] == [];
      assert events + [e] == [e];
    } else {
      assert (events + [e])[1..] == events[1..] + [e];
      RunLast(l, Step(l, s, events[0]), events[1..], e);
    }
  }

  // ----- the request is what the client sent -----

  /** Header fields and chunks of the stream, none of them refused, among any events of other streams. */
  ghost predicate Gathers(l: Limits, s: State, events: seq<Event>, id: int)
    decreases |events|
  {
    events == [] ||
    (&& (events[0].id == id ==> (events[0].Header? || events[0].Chunk? || events[0] == Frame(id, false))
                                && Accepts(l, s, events[0]))
     && Gathers(l, Step(l, s, events[0]), events[1..], id))
  }

  /** What one callback adds to its stream. */
  function Added(s: Stream, e: Event): Stream {
    if e.Header? then WithField(s, e.name, e.value)
    else if e.Chunk? then s.(body := s.body + e.bytes)
    else s
  }

  /** The stream's own fields and chunks, in order, whatever came between. */
  function Assembled(s: Stream, events: seq<Event>, id: int): (r: Stream)
    ensures r.completed == s.completed
    decreases |events|
  {
    if events == [] then s
    else Assembled(if events[0].id == id then Added(s, events[0]) else s, events[1..], id)
  }

  ghost predicate SameContent(a: Stream, b: Stream) {
    a == b.(headerBytes := a.headerBytes)
  }

  lemma StepGathers(l: Limits, s: State, e: Event, id: int, sent: Stream)
    requires id in s.streams && SameContent(s.streams[id], sent)
    requires e.id == id ==> (e.Header? || e.Chunk? || e == Frame(id, false)) && Accepts(l, s, e)
    ensures var s' := Step(l, s, e);
            id in s'.streams && SameContent(s'.streams[id], if e.id == id then Added(sent, e) else sent)
  {
  }

  lemma {:induction false} RunGathers(l: Limits, s: State, events: seq<Event>, id: int, sent: Stream)
    requires id in s.streams && SameContent(s.streams[id], sent) && Gathers(l, s, events, id)
    ensures var s' := Run(l, s, events);
            id in s'.streams && SameContent(s'.streams[id], Assembled(sent, events, id))
    decreases |events|
  {
    if events != [] {
      StepGathers(l, s, events[0], id, sent);
      hide Step, SameContent, Added, Accepts;
      RunGathers(l, Step(l, s, events[0]), events[1..], id,
                 if events[0].id == id then Added(sent, events[0]) else sent);
    }
  }

  /** A stream whose callbacks were all accepted hands on what was assembled, or nothing when that is not well formed. */
  lemma HandsOnAssembled(l: Limits, s: State, events: seq<Event>, id: int)
    requires Gathers(l, Step(l, s, Begin(id, true)), events, id)
    ensures var before := Run(l, Step(l, s, Begin(id, true)), events);
            var sent := Assembled(NEW, events, id);
            Step(l, before, Frame(id, true)).ready ==
              before.ready +
              (if sent.path != "" && sent.path[0] == '/' && KnownMethod(sent.verb)
               then [Request(id, sent.verb, sent.path, sent.headers, sent.body)] else [])
  {
    RunGathers(l, Step(l, s, Begin(id, true)), events, id, NEW);
    hide Run, Gathers, Assembled;
  }

  // ----- the session object -----

  class Http2Session {
    const limits: Limits
    var streams: map<int, Stream>
    var ready: seq<Request>

    ghost function Now(): State
      reads this
    {
      State(streams, ready)
    }

    constructor (limits: Limits)
      ensures this.limits == limits && Now() == START
    {
      this.limits := limits;
      streams, ready := map[], [];
    }

    method OnBeginHeaders(id: int, request: bool)
      modifies this
      ensures Now() == Step(limits, old(Now()), Begin(id, request))
    {
      if request {
        streams := streams[id := NEW];
      }
    }

    method OnHeaderField(id: int, name: string, value: string) returns (accepted: bool)
      modifies this
      ensures Now() == Step(limits, old(Now()), Header(id, name, value))
      ensures accepted == Accepts(limits, old(Now()), Header(id, name, value))
    {
      if id !in streams { return true; }
      var stream := streams[id];
      if !HeaderRoom(limits, stream.headerBytes, name, value) {
        assert streams[id := streams[id]] == streams;
        return false;
      }
      stream := stream.(headerBytes := stream.headerBytes + |name| + |value|);
      accepted := true;
      if name == ":method" {
        stream := stream.(verb := value);
      } else if name == ":path" {
        stream := stream.(path := value);
      } else if name == ":authority" {
        stream := stream.(headers := stream.headers + [("host", value)]);
      } else if name == "" || name[0] != ':' {
        if ConnectionSpecific(name) || (name == "te" && value != "trailers") || stream.headerBytes > limits.request {
          accepted := false;
        } else {
          stream := stream.(headers := stream.headers + [(name, value)]);
        }
      }
      streams := streams[id := stream];
    }

    method OnDataChunk(id: int, bytes: string) returns (accepted: bool)
      modifies this
      ensures Now() == Step(limits, old(Now()), Chunk(id, bytes))
      ensures accepted == Accepts(limits, old(Now()), Chunk(id, bytes))
    {
      if id !in streams { return true; }
      var stream := streams[id];
      var budget := limits.request - Min(stream.headerBytes, limits.request);
      if |stream.body| > budget || |bytes| > budget - |stream.body| {
        assert streams[id := streams[id]] == streams;
        return false;
      }
      streams := streams[id := stream.(body := stream.body + bytes)];
      return true;
    }

    method OnFrameReceived(id: int, endStream: bool)
      modifies this
      ensures Now() == Step(limits, old(Now()), Frame(id, endStream))
    {
      if !endStream || id !in streams { return; }
      var (next, out) := OnEnd(id, streams[id]);
      streams, ready := streams[id := next], ready + out;
    }

    method OnStreamClose(id: int)
      modifies this
      ensures Now() == Step(limits, old(Now()), Close(id))
    {
      streams := streams - {id};
    }
  }
}
