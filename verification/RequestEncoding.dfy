/** Requests as a client writes them (section 3 of RFC 9112): exactly which the server takes, what it reads from
    those it takes, and where it sees them end, so that the theorems on request streams speak of real ones. */
module RequestEncoding {
  import opened Text
  import opened Framing
  import opened HeaderFields
  import opened RequestParser
  import opened Http1
  import opened Http1Order

  // ----- the client's side -----

  datatype Outgoing = Outgoing(verb: Method, target: string, version: string, headers: seq<Header>, body: string)

  function MethodName(verb: Method): (name: string)
    ensures ParseMethod(name) == Some(verb) && ' ' !in name && '\r' !in name
  {
    match verb
    case Get => "GET"
    case Post => "POST"
    case Put => "PUT"
    case Patch => "PATCH"
    case Delete => "DELETE"
    case Options => "OPTIONS"
    case Head => "HEAD"
  }

  function FirstLine(q: Outgoing): string {
    MethodName(q.verb) + " " + q.target + " " + q.version
  }

  /** Every header on a line of its own, behind the line before it. */
  function HeaderLines(headers: seq<Header>): string {
    if headers == [] then "" else CRLF + HeaderLine(headers[0]) + HeaderLines(headers[1..])
  }

  function HeadSection(q: Outgoing): string {
    FirstLine(q) + HeaderLines(q.headers)
  }

  function EncodeRequest(q: Outgoing): string {
    HeadSection(q) + BLANK + q.body
  }

  predicate Written(q: Outgoing) {
    ' ' !in q.target && '\r' !in q.target && '\r' !in q.version && AllPlaced(q.headers)
  }

  // ----- what the server should take -----

  predicate Has(headers: seq<Header>, name: string) {
    exists k :: 0 <= k < |headers| && Named(headers[k].name, name)
  }

  predicate AtMostOne(headers: seq<Header>, name: string) {
    forall j, k :: 0 <= j < k < |headers| ==> !(Named(headers[j].name, name) && Named(headers[k].name, name))
  }

  /** Nothing leaves the length of the body in doubt. */
  predicate LengthClear(headers: seq<Header>) {
    && !Has(headers, "transfer-encoding")
    && AtMostOne(headers, "content-length")
    && forall k :: 0 <= k < |headers| && Named(headers[k].name, "content-length") ==> SizeText(headers[k].value)
  }

  predicate HostClear(headers: seq<Header>) {
    && AtMostOne(headers, "host")
    && forall k :: 0 <= k < |headers| && Named(headers[k].name, "host") ==> headers[k].value != ""
  }

  predicate ProperFields(headers: seq<Header>) {
    forall k :: 0 <= k < |headers| ==> Token(headers[k].name) && FieldText(headers[k].value)
  }

  /** The length the headers declare. */
  function Declared(headers: seq<Header>): Option<nat> {
    if headers == [] then None
    else if Named(headers[0].name, "content-length") then Some(Value(headers[0].value, 10))
    else Declared(headers[1..])
  }

  function BodyLength(headers: seq<Header>): nat {
    if Declared(headers).Some? then Declared(headers).value else 0
  }

  predicate Takes(q: Outgoing) {
    && q.version in {"HTTP/1.1", "HTTP/1.0"}
    && q.target != "" && q.target[0] == '/'
    && ProperFields(q.headers) && LengthClear(q.headers) && HostClear(q.headers)
    && (q.version == "HTTP/1.1" ==> Has(q.headers, "host"))
    && BodyLength(q.headers) <= |q.body|
  }

  function FieldOf(h: Header): Field {
    Field(Folded(h.name), h.value)
  }

  function Fields(headers: seq<Header>): (fields: seq<Field>)
    ensures |fields| == |headers| && forall k :: 0 <= k < |fields| ==> fields[k] == FieldOf(headers[k])
  {
    seq(|headers|, k requires 0 <= k < |headers| => FieldOf(headers[k]))
  }

  function Count(headers: seq<Header>, name: string): nat {
    if headers == [] then 0 else (if Named(headers[0].name, name) then 1 else 0) + Count(headers[1..], name)
  }

  /** The request a handler should see; a trace context sent more than once is blanked. */
  function Meant(q: Outgoing): Request
    requires BodyLength(q.headers) <= |q.body|
  {
    Request(q.verb, q.target, q.version,
            Fields(q.headers) + if Count(q.headers, "traceparent") > 1 then [Field("traceparent", "")] else [],
            Declared(q.headers), q.body[..BodyLength(q.headers)])
  }

  // ----- the request line -----

  lemma FindFrom(pre: string, front: string, c: char, back: string, s: string, from: nat, at: nat)
    requires c !in front && s == pre + (front + [c] + back) && from == |pre| && at == from + |front|
    ensures Find(s, [c], from) == Some(at)
  {
    forall j | from <= j < at ensures !At(s, [c], j) {
      assert s[j..j + 1][0] == front[j - from];
    }
    assert s[at..at + 1] == [c];
    FindIs(s, [c], from, at);
  }

  lemma LineSlices(name: string, target: string, version: string, line: string, first: nat, second: nat)
    requires line == name + [' '] + target + [' '] + version && first == |name| && second == first + 1 + |target|
    ensures second + 1 <= |line| && line[..first] == name && line[first + 1..second] == target && line[second + 1..] == version
    ensures line == "" + (name + [' '] + (target + [' '] + version))
    ensures line == (name + [' ']) + (target + [' '] + version)
  {
  }

  predicate GoodLine(target: string, version: string) {
    version in {"HTTP/1.1", "HTTP/1.0"} && target != "" && target[0] == '/'
  }

  /** A request line is taken exactly with one of the seven methods, a path and a version of HTTP/1. */
  lemma RequestLineReads(name: string, target: string, version: string, line: string)
    requires line == name + [' '] + target + [' '] + version && ' ' !in name && ' ' !in target
    ensures ParseRequestLine(line).Good? <==> GoodLine(target, version) && exists verb :: name == MethodName(verb)
    ensures ParseRequestLine(line).Good? ==>
              var got := ParseRequestLine(line).value;
              MethodName(got.verb) == name && got.target == target && got.version == version
  {
    hide Find, ParseMethod, MethodName;
    var first, second := |name|, |name| + 1 + |target|;
    LineSlices(name, target, version, line, first, second);
    FindFrom("", name, ' ', target + [' '] + version, line, 0, first);
    FindFrom(name + [' '], target, ' ', version, line, first + 1, second);
    MethodsKnown(name);
    LineIs(name, target, version, line, first, second);
  }

  lemma MethodsKnown(name: string)
    ensures ParseMethod(name).Some? <==> exists verb :: name == MethodName(verb)
    ensures ParseMethod(name).Some? ==> MethodName(ParseMethod(name).value) == name
  {
    if ParseMethod(name).Some? {
      var verb := ParseMethod(name).value;
      assert name == MethodName(verb);
    }
    hide MethodName, ParseMethod;
  }

  lemma LineIs(name: string, target: string, version: string, line: string, first: nat, second: nat)
    requires Find(line, " ", 0) == Some(first) && Find(line, " ", first + 1) == Some(second) && first < second
    requires second + 1 <= |line| && line[..first] == name && line[first + 1..second] == target && line[second + 1..] == version
    ensures ParseRequestLine(line).Good? <==> ParseMethod(name).Some? && GoodLine(target, version)
    ensures ParseRequestLine(line).Good? ==> ParseRequestLine(line).value == RequestLine(ParseMethod(name).value, target, version)
  {
    hide Find, ParseMethod;
  }

  lemma NamesDiffer(a: Method, b: Method)
    ensures MethodName(a) == MethodName(b) ==> a == b
  {
  }

  lemma FirstLineReads(q: Outgoing)
    requires Written(q)
    ensures ParseRequestLine(FirstLine(q)).Good? <==> GoodLine(q.target, q.version)
    ensures GoodLine(q.target, q.version) ==> ParseRequestLine(FirstLine(q)) == Good(RequestLine(q.verb, q.target, q.version))
  {
    hide AllPlaced, ParseRequestLine, MethodName;
    var line, name := FirstLine(q), MethodName(q.verb);
    assert line == name + [' '] + q.target + [' '] + q.version;
    RequestLineReads(name, q.target, q.version, line);
    if ParseRequestLine(line).Good? {
      NamesDiffer(ParseRequestLine(line).value.verb, q.verb);
    }
  }

  // ----- one header line -----

  /** What one more header does to the headers before it. */
  predicate Passes(h: Header, seen: Seen) {
    && Token(h.name) && FieldText(h.value) && LengthPasses(h, seen.length)
    && (Named(h.name, "host") ==> !seen.host && h.value != "")
  }

  predicate LengthPasses(h: Header, seen: Option<nat>) {
    && !Named(h.name, "transfer-encoding")
    && (Named(h.name, "content-length") ==> seen.None? && SizeText(h.value))
  }

  function LengthNow(h: Header, seen: Option<nat>): Option<nat> {
    if Named(h.name, "content-length") then Some(Value(h.value, 10)) else seen
  }

  function NoteOne(h: Header, seen: Seen): Seen {
    Seen(seen.fields + [FieldOf(h)], LengthNow(h, seen.length), seen.host || Named(h.name, "host"),
         seen.traceparents + if Named(h.name, "traceparent") then 1 else 0)
  }

  lemma LengthNoted(h: Header, seen: Option<nat>)
    ensures NoteLength(FieldOf(h), seen).Good? <==> LengthPasses(h, seen)
    ensures LengthPasses(h, seen) ==> NoteLength(FieldOf(h), seen) == Good(LengthNow(h, seen))
    ensures NoteLength(FieldOf(h), seen).Fails? ==> NoteLength(FieldOf(h), seen).error in {DuplicateLength, InvalidLength, TransferEncoding}
  {
    SizeReads(h.value);
    hide ParseSize, SizeText, Value;
  }

  lemma HeaderReads(h: Header, seen: Seen)
    requires Placed(h)
    ensures ReadLine(HeaderLine(h), seen).Good? <==> Passes(h, seen)
    ensures Passes(h, seen) ==> ReadLine(HeaderLine(h), seen) == Good(NoteOne(h, seen))
  {
    hide Find, Trim, Lower, HeaderLine, NoteLength, Token, FieldText, ValidName, ValidValue, LengthPasses, LengthNow, Edgeless, Placed;
    LineSplits(h);
    LengthNoted(h, seen.length);
    NameIsToken(h.name);
    ValueIsText(h.value);
    if Token(h.name) {
      TokenIsEdgeless(h.name);
    }
  }

  lemma LengthReads(h: Header, seen: Option<nat>)
    requires Placed(h)
    ensures SplitField(HeaderLine(h)).Good? <==> Edgeless(h.name)
    ensures Edgeless(h.name) ==> SplitField(HeaderLine(h)) == Good(FieldOf(h))
    ensures SplitField(HeaderLine(h)).Fails? ==> SplitField(HeaderLine(h)).error == InvalidHeaderName
  {
    hide Find, Trim, Lower, HeaderLine, Placed, Edgeless;
    LineSplits(h);
  }

  // ----- all header lines -----

  /** The header lines read one after the other. */
  function ReadAll(headers: seq<Header>, seen: Seen): Outcome<Seen>
    decreases |headers|
  {
    if headers == [] then Good(seen)
    else match ReadLine(HeaderLine(headers[0]), seen)
      case Fails(e) => Fails(e)
      case Good(now) => ReadAll(headers[1..], now)
  }

  function LengthAll(headers: seq<Header>, seen: Option<nat>): Outcome<nat>
    decreases |headers|
  {
    if headers == [] then Good(if seen.Some? then seen.value else 0)
    else match SplitField(HeaderLine(headers[0]))
      case Fails(e) => Fails(e)
      case Good(field) =>
        match NoteLength(field, seen)
        case Fails(e) => Fails(e)
        case Good(now) => LengthAll(headers[1..], now)
  }

  const NOTHING := Seen([], None, false, 0)

  /** The headers pass behind what was seen before them. */
  predicate AllPass(headers: seq<Header>, seen: Seen) {
    && ProperFields(headers) && LengthClear(headers) && HostClear(headers)
    && (seen.length.Some? ==> !Has(headers, "content-length"))
    && (seen.host ==> !Has(headers, "host"))
  }

  lemma HasFirst(headers: seq<Header>, name: string)
    requires headers != []
    ensures Has(headers, name) <==> Named(headers[0].name, name) || Has(headers[1..], name)
  {
    hide Named;
    var rest := headers[1..];
    assert forall k :: 0 <= k < |rest| ==> rest[k] == headers[k + 1];
    if Has(rest, name) {
      var k :| 0 <= k < |rest| && Named(rest[k].name, name);
      assert Named(headers[k + 1].name, name);
    }
    assert forall k :: 1 <= k < |headers| ==> headers[k] == rest[k - 1];
  }

  lemma OneFirst(headers: seq<Header>, name: string)
    requires headers != []
    ensures AtMostOne(headers, name) <==> AtMostOne(headers[1..], name) && !(Named(headers[0].name, name) && Has(headers[1..], name))
  {
    hide Named;
    var rest := headers[1..];
    assert forall k :: 0 <= k < |rest| ==> rest[k] == headers[k + 1];
    if AtMostOne(rest, name) && !(Named(headers[0].name, name) && Has(rest, name)) {
      forall j, k | 0 <= j < k < |headers| ensures !(Named(headers[j].name, name) && Named(headers[k].name, name)) {
        assert headers[k] == rest[k - 1];
        if j > 0 {
          assert headers[j] == rest[j - 1];
        }
      }
    }
    if AtMostOne(headers, name) {
      forall j, k | 0 <= j < k < |rest| ensures !(Named(rest[j].name, name) && Named(rest[k].name, name)) {
        assert rest[j] == headers[j + 1] && rest[k] == headers[k + 1];
      }
    }
  }

  ghost predicate EachNamed(headers: seq<Header>, name: string, good: string -> bool) {
    forall k :: 0 <= k < |headers| && Named(headers[k].name, name) ==> good(headers[k].value)
  }

  lemma EachFirst(headers: seq<Header>, name: string, good: string -> bool)
    requires headers != []
    ensures EachNamed(headers, name, good) <==> (Named(headers[0].name, name) ==> good(headers[0].value)) && EachNamed(headers[1..], name, good)
  {
    hide Named;
    assert forall k :: 1 <= k < |headers| ==> headers[k] == headers[1..][k - 1];
  }

  lemma LengthFirst(headers: seq<Header>, seen: Option<nat>)
    requires headers != []
    ensures var h, rest := headers[0], headers[1..];
            LengthClear(headers) && (seen.Some? ==> !Has(headers, "content-length")) <==>
              LengthPasses(h, seen) && LengthClear(rest) && (LengthNow(h, seen).Some? ==> !Has(rest, "content-length"))
    ensures LengthPasses(headers[0], seen) ==>
              (if LengthNow(headers[0], seen).Some? then LengthNow(headers[0], seen) else Declared(headers[1..]))
              == if seen.Some? then seen else Declared(headers)
  {
    hide Named, Has, AtMostOne, Value, SizeText;
    HasFirst(headers, "content-length");
    HasFirst(headers, "transfer-encoding");
    OneFirst(headers, "content-length");
    EachFirst(headers, "content-length", SizeText);
    assert EachNamed(headers, "content-length", SizeText) <==>
      forall k :: 0 <= k < |headers| && Named(headers[k].name, "content-length") ==> SizeText(headers[k].value);
  }

  lemma HostFirst(headers: seq<Header>, seen: bool)
    requires headers != []
    ensures var h, rest := headers[0], headers[1..];
            HostClear(headers) && (seen ==> !Has(headers, "host")) <==>
              (Named(h.name, "host") ==> !seen && h.value != "") && HostClear(rest) && (seen || Named(h.name, "host") ==> !Has(rest, "host"))
  {
    hide Named, Has, AtMostOne;
    HasFirst(headers, "host");
    OneFirst(headers, "host");
    EachFirst(headers, "host", (v: string) => v != "");
  }

  lemma ProperFirst(headers: seq<Header>)
    requires headers != []
    ensures ProperFields(headers) <==> Token(headers[0].name) && FieldText(headers[0].value) && ProperFields(headers[1..])
  {
    hide Token, FieldText;
    assert forall k :: 1 <= k < |headers| ==> headers[k] == headers[1..][k - 1];
  }

  lemma PassFirst(headers: seq<Header>, seen: Seen)
    requires headers != []
    ensures AllPass(headers, seen) <==> Passes(headers[0], seen) && AllPass(headers[1..], NoteOne(headers[0], seen))
  {
    hide Has, ProperFields, LengthClear, HostClear, LengthPasses, LengthNow, Token, FieldText, Named;
    ProperFirst(headers);
    LengthFirst(headers, seen.length);
    HostFirst(headers, seen.host);
  }

  /** What the headers add to what was seen before. */
  function Added(headers: seq<Header>, seen: Seen): Seen {
    Seen(seen.fields + Fields(headers), if seen.length.Some? then seen.length else Declared(headers),
         seen.host || Has(headers, "host"), seen.traceparents + Count(headers, "traceparent"))
  }

  lemma AddFirst(headers: seq<Header>, seen: Seen)
    requires headers != [] && LengthPasses(headers[0], seen.length)
    ensures Added(headers[1..], NoteOne(headers[0], seen)) == Added(headers, seen)
  {
    assert Count(headers, "traceparent") == (if Named(headers[0].name, "traceparent") then 1 else 0) + Count(headers[1..], "traceparent");
    hide Has, LengthPasses, LengthNow, Declared, Named, FieldOf, Fields, Count;
    LengthFirst(headers, seen.length);
    HasFirst(headers, "host");
    FieldsFirst(headers, seen.fields);
  }

  lemma FieldsFirst(headers: seq<Header>, before: seq<Field>)
    requires headers != []
    ensures (before + [FieldOf(headers[0])]) + Fields(headers[1..]) == before + Fields(headers)
  {
    hide FieldOf;
    assert Fields(headers) == [FieldOf(headers[0])] + Fields(headers[1..]);
  }

  /** Reading the lines comes to what the standards say of the list of headers. */
  lemma {:induction false} AllRead(headers: seq<Header>, seen: Seen)
    requires AllPlaced(headers)
    ensures ReadAll(headers, seen).Good? <==> AllPass(headers, seen)
    ensures AllPass(headers, seen) ==> ReadAll(headers, seen) == Good(Added(headers, seen))
    decreases |headers|
  {
    if headers == [] {
      assert seen.fields + Fields(headers) == seen.fields;
    } else {
      HeaderReads(headers[0], seen);
      PassFirst(headers, seen);
      hide AllPass, Passes, Added, NoteOne, HeaderLine, ReadLine, LengthPasses;
      if Passes(headers[0], seen) {
        PassesLength(headers[0], seen);
        AllRead(headers[1..], NoteOne(headers[0], seen));
        AddFirst(headers, seen);
      }
    }
  }

  lemma PassesLength(h: Header, seen: Seen)
    requires Passes(h, seen)
    ensures LengthPasses(h, seen.length)
  {
  }

  predicate EdgelessNames(headers: seq<Header>) {
    forall k :: 0 <= k < |headers| ==> Edgeless(headers[k].name)
  }

  /** The framing looks at the length alone, and at the blanks around names. */
  lemma {:induction false} AllLengths(headers: seq<Header>, seen: Option<nat>)
    requires AllPlaced(headers)
    ensures var r := LengthAll(headers, seen);
            && (r.Good? <==> EdgelessNames(headers) && LengthClear(headers) && (seen.Some? ==> !Has(headers, "content-length")))
            && (r.Good? ==> r.value == if seen.Some? then seen.value else BodyLength(headers))
            && (r.Fails? ==> r.error !in {HeaderLimit, TooLarge})
    decreases |headers|
  {
    if headers != [] {
      var h := headers[0];
      LengthReads(h, seen);
      LengthNoted(h, seen);
      LengthFirst(headers, seen);
      assert EdgelessNames(headers) <==> Edgeless(h.name) && EdgelessNames(headers[1..]) by {
        hide Edgeless;
        assert forall k :: 1 <= k < |headers| ==> headers[k] == headers[1..][k - 1];
      }
      hide LengthClear, Has, LengthPasses, LengthNow, Declared, EdgelessNames, Edgeless, HeaderLine, NoteLength, SplitField, FieldOf;
      if Edgeless(h.name) && LengthPasses(h, seen) {
        AllLengths(headers[1..], LengthNow(h, seen));
      }
    }
  }

  /** No empty line inside: a carriage return is followed by a line feed and a character of a line. */
  ghost predicate Compact(s: string) {
    forall j :: 0 <= j < |s| && s[j] == '\r' ==> j + 2 < |s| && s[j + 2] != '\r'
  }

  /** The only carriage return behind s is the one right behind it. */
  lemma LineCharsOnly(s: string, line: string, j: nat)
    requires '\r' !in line && j < |s + CRLF + line| && (s + CRLF + line)[j] == '\r'
    ensures j <= |s|
  {
    var t := s + CRLF + line;
    assert t[|s| + 1] == '\n';
    assert forall i :: |s| + 2 <= i < |t| ==> t[i] == line[i - |s| - 2];
  }

  lemma CompactLine(s: string, line: string)
    requires Compact(s) && line != "" && '\r' !in line
    ensures Compact(s + CRLF + line)
  {
    var t := s + CRLF + line;
    forall j | 0 <= j < |t| && t[j] == '\r' ensures j + 2 < |t| && t[j + 2] != '\r' {
      assert t[|s| + 2] == line[0];
      LineCharsOnly(s, line, j);
    }
  }

  lemma FirstHeaderLine(s: string, headers: seq<Header>, t: string, u: string)
    requires headers != [] && t == s + HeaderLines(headers) && u == s + CRLF + HeaderLine(headers[0])
    ensures t == u + HeaderLines(headers[1..])
  {
    var line, rest := HeaderLine(headers[0]), HeaderLines(headers[1..]);
    assert HeaderLines(headers) == CRLF + line + rest;
    hide HeaderLine, HeaderLines;
    Regroup(s, line, rest);
  }

  lemma Regroup(s: string, line: string, rest: string)
    ensures s + (CRLF + line + rest) == (s + CRLF + line) + rest
  {
  }

  lemma {:induction false} CompactLines(s: string, headers: seq<Header>, t: string)
    requires Compact(s) && AllPlaced(headers) && t == s + HeaderLines(headers)
    ensures Compact(t)
    decreases |headers|
  {
    if headers == [] {
      assert t == s;
    } else {
      LineChars(headers[0]);
      hide Placed, HeaderLine, HeaderLines, Compact;
      var u := s + CRLF + HeaderLine(headers[0]);
      CompactLine(s, HeaderLine(headers[0]));
      FirstHeaderLine(s, headers, t, u);
      CompactLines(u, headers[1..], t);
    }
  }

  lemma CompactUnbroken(s: string)
    requires Compact(s)
    ensures Unbroken(s)
  {
    var t := s + BLANK;
    assert forall j :: 0 <= j < |s| ==> t[j] == s[j];
    forall j | 0 <= j < |s| ensures !At(t, BLANK, j) {
      if At(t, BLANK, j) {
        BlankChars(t, j);
      }
    }
  }

  /** One round of the header loop. */
  lemma LineTaken(message: string, headerEnd: nat, cursor: nat, end: nat, line: string, seen: Seen, last: bool, next: nat)
    requires LineAt(message, cursor, line, headerEnd, end) && last == (end == headerEnd) && next == end + 2
    ensures headerEnd <= |message|
    ensures LinesFrom(message, headerEnd, cursor, seen) == ReadOn(message, headerEnd, ReadLine(line, seen), last, next)
  {
    hide Find, ReadLine;
  }

  /** Reading on behind a line that was read. */
  ghost function ReadOn(message: string, headerEnd: nat, read: Outcome<Seen>, last: bool, next: nat): Outcome<Seen>
    requires headerEnd <= |message|
  {
    match read
    case Fails(e) => Fails(e)
    case Good(now) => if last then Good(now) else LinesFrom(message, headerEnd, next, now)
  }

  /** The message has this text from `from` up to the empty line at `headerEnd`. */
  ghost predicate TextAt(message: string, from: nat, text: string, headerEnd: nat) {
    from + |text| == headerEnd && headerEnd + 4 <= |message| && message[from..headerEnd] == text && At(message, BLANK, headerEnd)
  }

  /** Behind a line: the next line, or the empty one. */
  ghost predicate FollowsLine(rest: string) {
    rest == "" || (|rest| >= 2 && rest[..2] == CRLF)
  }

  lemma LineInText(message: string, from: nat, line: string, rest: string, headerEnd: nat, end: nat)
    requires TextAt(message, from, line + rest, headerEnd) && FollowsLine(rest) && end == from + |line|
    ensures end <= headerEnd && message[from..end] == line && At(message, CRLF, end)
    ensures rest != "" ==> end + 2 <= headerEnd && TextAt(message, end + 2, rest[2..], headerEnd)
    ensures rest == "" <==> end == headerEnd
  {
    var text := line + rest;
    assert message[from..headerEnd][..|line|] == line;
    assert message[from..end] == message[from..headerEnd][..|line|];
    if rest == "" {
      assert message[end..end + 2] == message[headerEnd..headerEnd + 4][..2];
    } else {
      assert message[end..headerEnd] == message[from..headerEnd][|line|..] == rest;
      assert message[end..end + 2] == message[end..headerEnd][..2];
      assert message[end + 2..headerEnd] == message[end..headerEnd][2..];
    }
  }

  lemma LineFoundIn(message: string, from: nat, line: string, end: nat)
    requires from <= end <= |message| && message[from..end] == line && '\r' !in line && At(message, CRLF, end)
    ensures Find(message, CRLF, from) == Some(end)
  {
    assert forall j :: from <= j < end ==> message[j] == line[j - from];
    forall j | from <= j < end ensures !At(message, CRLF, j) {
      if At(message, CRLF, j) {
        LineEndChar(message, j);
      }
    }
    FindIs(message, CRLF, from, end);
  }

  /** The text of the header lines, without the line end in front of the first. */
  function Lines(headers: seq<Header>): string
    requires headers != []
  {
    HeaderLine(headers[0]) + HeaderLines(headers[1..])
  }

  lemma HeaderLinesStart(headers: seq<Header>)
    requires headers != []
    ensures HeaderLines(headers) == CRLF + Lines(headers) && HeaderLines(headers)[2..] == Lines(headers)
    ensures FollowsLine(HeaderLines(headers)) && HeaderLines(headers) != ""
  {
    var line, rest := HeaderLine(headers[0]), HeaderLines(headers[1..]);
    assert HeaderLines(headers) == CRLF + line + rest;
    hide HeaderLine, HeaderLines;
    BehindLineEnd(HeaderLines(headers), line, rest);
  }

  lemma BehindLineEnd(all: string, line: string, rest: string)
    requires all == CRLF + line + rest
    ensures all == CRLF + (line + rest) && all[2..] == line + rest && FollowsLine(all) && all != ""
  {
  }

  lemma LinePlace(message: string, from: nat, line: string, rest: string, headerEnd: nat, end: nat, next: nat)
    requires TextAt(message, from, line + rest, headerEnd) && FollowsLine(rest) && end == from + |line| && next == end + 2
    requires line != "" && '\r' !in line
    ensures LineAt(message, from, line, headerEnd, end)
    ensures rest == "" <==> end == headerEnd
    ensures rest != "" ==> TextAt(message, next, rest[2..], headerEnd)
  {
    TextFits(message, from, line + rest, headerEnd);
    hide TextAt, FollowsLine, Find, At;
    LineInText(message, from, line, rest, headerEnd, end);
    LineFoundIn(message, from, line, end);
  }

  /** A line of the header block lies here. */
  ghost predicate LineAt(message: string, from: nat, line: string, headerEnd: nat, end: nat) {
    from < end <= headerEnd <= |message| && message[from..end] == line && Find(message, CRLF, from) == Some(end)
  }

  lemma HeaderPlace(message: string, from: nat, headers: seq<Header>, headerEnd: nat, end: nat, next: nat)
    requires headers != [] && Placed(headers[0]) && TextAt(message, from, Lines(headers), headerEnd)
    requires end == from + |HeaderLine(headers[0])| && next == end + 2
    ensures LineAt(message, from, HeaderLine(headers[0]), headerEnd, end)
    ensures headers[1..] == [] <==> end == headerEnd
    ensures headers[1..] != [] ==> TextAt(message, next, Lines(headers[1..]), headerEnd)
  {
    var line, rest := HeaderLine(headers[0]), HeaderLines(headers[1..]);
    assert Lines(headers) == line + rest;
    LineChars(headers[0]);
    assert headers[1..] == [] ==> rest == "" && FollowsLine(rest);
    hide Placed, HeaderLine, HeaderLines, TextAt, FollowsLine, Lines, LineAt;
    if headers[1..] != [] {
      HeaderLinesStart(headers[1..]);
    }
    LinePlace(message, from, line, rest, headerEnd, end, next);
  }

  lemma TextFits(message: string, from: nat, text: string, headerEnd: nat)
    requires TextAt(message, from, text, headerEnd)
    ensures headerEnd <= |message|
  {
  }

  /** Reading from the start of a header line through all that follow. */
  lemma {:induction false} LinesRead(message: string, from: nat, headers: seq<Header>, headerEnd: nat, seen: Seen)
    requires headers != [] && AllPlaced(headers) && TextAt(message, from, Lines(headers), headerEnd)
    ensures headerEnd <= |message| && LinesFrom(message, headerEnd, from, seen) == ReadAll(headers, seen)
    decreases |headers|
  {
    TextFits(message, from, Lines(headers), headerEnd);
    var line := HeaderLine(headers[0]);
    var end, next := from + |line|, from + |line| + 2;
    hide TextAt, Lines, LinesFrom, Placed, HeaderLine, ReadLine, LineAt, ReadAll;
    HeaderPlace(message, from, headers, headerEnd, end, next);
    LineTaken(message, headerEnd, from, end, line, seen, headers[1..] == [], next);
    ReadAllFirst(headers, seen);
    var read := ReadLine(line, seen);
    if read.Good? {
      if headers[1..] != [] {
        LinesRead(message, next, headers[1..], headerEnd, read.value);
      } else {
        ReadAllOver(read.value);
      }
    }
  }

  lemma ReadAllFirst(headers: seq<Header>, seen: Seen)
    requires headers != []
    ensures var read := ReadLine(HeaderLine(headers[0]), seen);
            ReadAll(headers, seen) == if read.Fails? then Fails(read.error) else ReadAll(headers[1..], read.value)
  {
    hide HeaderLine, ReadLine;
  }

  lemma ReadAllOver(seen: Seen)
    ensures ReadAll([], seen) == Good(seen)
  {
  }

  /** This text stands before the first empty line. */
  ghost predicate HeadIs(message: string, headerEnd: nat, text: string) {
    Find(message, BLANK, 0) == Some(headerEnd) && headerEnd <= |message| && text == message[..headerEnd]
  }

  lemma LengthTaken(message: string, headerEnd: nat, cursor: nat, end: nat, line: string, seen: Option<nat>, next: nat, text: string)
    requires HeadIs(message, headerEnd, text) && LineAt(message, cursor, line, headerEnd, end) && next == end + 2
    ensures LengthFrom(text, cursor, seen) == NoteOn(text, NoteLine(line, seen), next)
  {
    hide Find, NoteLine, NoteOn, LengthFrom;
    SameLines(message, headerEnd, cursor);
    assert text[cursor..end] == line;
    LengthUnfolds(text, cursor, end, line, seen);
  }

  lemma LengthUnfolds(text: string, cursor: nat, end: nat, line: string, seen: Option<nat>)
    requires cursor < |text| && LineEnd(text, cursor) == end && text[cursor..end] == line
    ensures LengthFrom(text, cursor, seen) == NoteOn(text, NoteLine(line, seen), end + 2)
  {
    hide SplitField, NoteLength, LineEnd;
  }

  /** What a line does to the length seen so far. */
  ghost function NoteLine(line: string, seen: Option<nat>): Outcome<Option<nat>> {
    match SplitField(line)
    case Fails(e) => Fails(e)
    case Good(field) => NoteLength(field, seen)
  }

  ghost function NoteOn(headers: string, noted: Outcome<Option<nat>>, next: nat): Outcome<nat> {
    match noted
    case Fails(e) => Fails(e)
    case Good(now) => LengthFrom(headers, next, now)
  }

  lemma LengthOver(headers: string, cursor: nat, seen: Option<nat>)
    requires cursor >= |headers|
    ensures LengthFrom(headers, cursor, seen) == Good(if seen.Some? then seen.value else 0)
  {
  }

  lemma LengthRound(message: string, from: nat, headers: seq<Header>, headerEnd: nat, seen: Option<nat>, next: nat, text: string)
    requires headers != [] && Placed(headers[0]) && TextAt(message, from, Lines(headers), headerEnd)
    requires HeadIs(message, headerEnd, text)
    requires next == from + |HeaderLine(headers[0])| + 2
    ensures LengthFrom(text, from, seen) == NoteOn(text, NoteLine(HeaderLine(headers[0]), seen), next)
    ensures headers[1..] != [] ==> TextAt(message, next, Lines(headers[1..]), headerEnd)
    ensures headers[1..] == [] ==> next >= |text|
  {
    var end := from + |HeaderLine(headers[0])|;
    assert |text| == headerEnd;
    hide TextAt, Lines, Placed, HeaderLine, LengthFrom, NoteLine, NoteOn, LineAt, HeadIs;
    HeaderPlace(message, from, headers, headerEnd, end, next);
    LengthTaken(message, headerEnd, from, end, HeaderLine(headers[0]), seen, next, text);
  }

  lemma {:induction false} LengthsRead(message: string, from: nat, headers: seq<Header>, headerEnd: nat, seen: Option<nat>, text: string)
    requires headers != [] && AllPlaced(headers) && TextAt(message, from, Lines(headers), headerEnd)
    requires HeadIs(message, headerEnd, text)
    ensures LengthFrom(text, from, seen) == LengthAll(headers, seen)
    decreases |headers|
  {
    var noted, next := NoteLine(HeaderLine(headers[0]), seen), from + |HeaderLine(headers[0])| + 2;
    hide TextAt, Lines, Placed, HeaderLine, LengthFrom, NoteLine, LengthAll, HeadIs;
    LengthRound(message, from, headers, headerEnd, seen, next, text);
    LengthAllFirst(headers, seen);
    if noted.Good? {
      if headers[1..] != [] {
        LengthsRead(message, next, headers[1..], headerEnd, noted.value, text);
      } else {
        LengthOver(text, next, noted.value);
        LengthAllOver(noted.value);
      }
    }
  }

  lemma LengthAllFirst(headers: seq<Header>, seen: Option<nat>)
    requires headers != []
    ensures var noted := NoteLine(HeaderLine(headers[0]), seen);
            LengthAll(headers, seen) == if noted.Fails? then Fails(noted.error) else LengthAll(headers[1..], noted.value)
  {
    hide HeaderLine, SplitField, NoteLength;
  }

  lemma LengthAllOver(seen: Option<nat>)
    ensures LengthAll([], seen) == Good(if seen.Some? then seen.value else 0)
  {
  }

  // ----- whole requests -----

  lemma FirstLineChars(q: Outgoing)
    requires Written(q)
    ensures '\r' !in FirstLine(q)
  {
    hide AllPlaced, MethodName;
    var name := MethodName(q.verb);
    assert FirstLine(q) == name + " " + q.target + " " + q.version;
  }

  lemma HeadEnds(q: Outgoing)
    requires Written(q)
    ensures Find(EncodeRequest(q), BLANK, 0) == Some(|HeadSection(q)|)
    ensures |EncodeRequest(q)| == |HeadSection(q)| + 4 + |q.body| && EncodeRequest(q)[|HeadSection(q)| + 4..] == q.body
  {
    var section := HeadSection(q);
    assert Unbroken(section) by { HeadUnbroken(q); }
    var message := EncodeRequest(q);
    assert message == section + BLANK + q.body;
    hide Find, HeadSection, EncodeRequest, Unbroken, Written;
    HeadSlices(message, section, q.body);
    FindBlankAt(message, section, 0, |section|);
  }

  lemma HeadSlices(message: string, section: string, body: string)
    requires message == section + BLANK + body
    ensures |message| == |section| + 4 + |body| && message[0..|section| + 4] == section + BLANK && message[|section| + 4..] == body
  {
  }

  lemma HeadUnbroken(q: Outgoing)
    requires Written(q)
    ensures Unbroken(HeadSection(q))
  {
    FirstLineChars(q);
    hide FirstLine, HeaderLines, AllPlaced;
    assert Compact(FirstLine(q));
    hide Compact;
    CompactLines(FirstLine(q), q.headers, HeadSection(q));
    CompactUnbroken(HeadSection(q));
  }

  lemma WholeText(message: string, section: string, body: string)
    requires message == section + BLANK + body
    ensures TextAt(message, 0, section, |section|)
  {
    assert message[0..|section|] == section && message[|section|..|section| + 4] == BLANK;
  }

  /** Where the parts of an encoded request lie. */
  lemma EncodedLayout(q: Outgoing)
    ensures TextAt(EncodeRequest(q), 0, FirstLine(q) + HeaderLines(q.headers), |HeadSection(q)|)
    ensures FollowsLine(HeaderLines(q.headers))
    ensures q.headers != [] ==> TextAt(EncodeRequest(q), |FirstLine(q)| + 2, Lines(q.headers), |HeadSection(q)|)
  {
    var first, lines, message := FirstLine(q), HeaderLines(q.headers), EncodeRequest(q);
    var n := |HeadSection(q)|;
    assert q.headers == [] ==> lines == "";
    if q.headers != [] {
      HeaderLinesStart(q.headers);
    }
    hide FirstLine, HeaderLines, Lines, FollowsLine;
    assert message == (first + lines) + BLANK + q.body;
    hide HeadSection, EncodeRequest;
    WholeText(message, first + lines, q.body);
    if q.headers != [] {
      hide TextAt;
      LineInText(message, 0, first, lines, n, |first|);
    }
  }

  lemma FirstLineEnds(q: Outgoing)
    requires Written(q)
    ensures Find(EncodeRequest(q), CRLF, 0) == Some(|FirstLine(q)|)
    ensures |FirstLine(q)| <= |HeadSection(q)| <= |EncodeRequest(q)| && EncodeRequest(q)[..|FirstLine(q)|] == FirstLine(q)
  {
    FirstLineChars(q);
    EncodedLayout(q);
    var first, message := FirstLine(q), EncodeRequest(q);
    TextFits(message, 0, first + HeaderLines(q.headers), |HeadSection(q)|);
    hide Find, FirstLine, HeaderLines, Written, TextAt, FollowsLine, EncodeRequest, HeadSection, At;
    LineInText(message, 0, first, HeaderLines(q.headers), |HeadSection(q)|, |first|);
    LineFoundIn(message, 0, first, |first|);
    assert message[0..|first|] == message[..|first|];
  }

  lemma HeadersRead(q: Outgoing, cursor: nat)
    requires Written(q) && cursor == |FirstLine(q)| + 2
    ensures |HeadSection(q)| <= |EncodeRequest(q)|
    ensures LinesFrom(EncodeRequest(q), |HeadSection(q)|, cursor, NOTHING) == ReadAll(q.headers, NOTHING)
  {
    assert q.headers == [] ==> HeaderLines(q.headers) == "" && |HeadSection(q)| == |FirstLine(q)|;
    assert q.headers == [] ==> ReadAll(q.headers, NOTHING) == Good(NOTHING);
    hide FirstLine, HeaderLines, ReadLine, ReadAll, TextAt, EncodeRequest, HeadSection, Lines, AllPlaced;
    EncodedLayout(q);
    TextFits(EncodeRequest(q), 0, FirstLine(q) + HeaderLines(q.headers), |HeadSection(q)|);
    if q.headers != [] {
      hide LinesFrom;
      LinesRead(EncodeRequest(q), cursor, q.headers, |HeadSection(q)|, NOTHING);
    }
  }

  /** The parser, step by step. */
  lemma ParsesAs(message: string, headerEnd: nat, lineEnd: nat, cursor: nat, first: string)
    requires lineEnd <= headerEnd && headerEnd + 4 <= |message| && cursor == lineEnd + 2 && message[..lineEnd] == first
    requires Find(message, BLANK, 0) == Some(headerEnd) && Find(message, CRLF, 0) == Some(lineEnd)
    ensures ParseRequest(message) == Parsed(message, headerEnd, ParseRequestLine(first), LinesFrom(message, headerEnd, cursor, NOTHING))
  {
    hide Find, ParseRequestLine, LinesFrom, Assemble;
  }

  ghost function Parsed(message: string, headerEnd: nat, line: Outcome<RequestLine>, seen: Outcome<Seen>): Outcome<Request>
    requires headerEnd + 4 <= |message|
  {
    match line
    case Fails(e) => Fails(e)
    case Good(l) =>
      match seen
      case Fails(e) => Fails(e)
      case Good(s) => Assemble(message, headerEnd, l, s)
  }

  lemma AssembleReads(q: Outgoing)
    requires |EncodeRequest(q)| == |HeadSection(q)| + 4 + |q.body| && EncodeRequest(q)[|HeadSection(q)| + 4..] == q.body
    ensures var r := Assemble(EncodeRequest(q), |HeadSection(q)|, RequestLine(q.verb, q.target, q.version), Added(q.headers, NOTHING));
            && (r.Good? <==> (q.version == "HTTP/1.1" ==> Has(q.headers, "host")) && BodyLength(q.headers) <= |q.body|)
            && (r.Good? ==> r.value == Meant(q))
  {
    hide Fields, Declared, Has, Count, EncodeRequest, HeadSection;
    assert [] + Fields(q.headers) == Fields(q.headers);
    assert Fields(q.headers) + [] == Fields(q.headers);
  }

  /** EXACTLY THE RIGHT REQUESTS.  Of all a client can write on the lines of a request, the parser takes those the
      standard allows and refuses the others; from those it takes it reads what was meant. */
  lemma RequestReads(q: Outgoing)
    requires Written(q)
    ensures ParseRequest(EncodeRequest(q)).Good? <==> Takes(q)
    ensures Takes(q) ==> ParseRequest(EncodeRequest(q)) == Good(Meant(q))
  {
    assert AllPass(q.headers, NOTHING) <==> ProperFields(q.headers) && LengthClear(q.headers) && HostClear(q.headers);
    hide Find, ParseRequestLine, LinesFrom, FirstLine, HeaderLines, HeadSection, EncodeRequest, Assemble, Meant, ReadAll, AllPass,
         ProperFields, LengthClear, HostClear, Has, Added, Declared, AllPlaced, ParseRequest, Parsed, Count, Fields;
    ParsedAs(q);
    FirstLineReads(q);
    AllRead(q.headers, NOTHING);
    HeadEnds(q);
    AssembleReads(q);
    Concluded(q, EncodeRequest(q), |HeadSection(q)|);
  }

  lemma ParsedAs(q: Outgoing)
    requires Written(q)
    ensures |HeadSection(q)| + 4 <= |EncodeRequest(q)|
    ensures ParseRequest(EncodeRequest(q)) ==
            Parsed(EncodeRequest(q), |HeadSection(q)|, ParseRequestLine(FirstLine(q)), ReadAll(q.headers, NOTHING))
  {
    hide Find, ParseRequestLine, LinesFrom, FirstLine, HeaderLines, HeadSection, EncodeRequest, ReadAll, AllPlaced, ParseRequest, Parsed, Written;
    HeadEnds(q);
    FirstLineEnds(q);
    HeadersRead(q, |FirstLine(q)| + 2);
    ParsesAs(EncodeRequest(q), |HeadSection(q)|, |FirstLine(q)|, |FirstLine(q)| + 2, FirstLine(q));
  }

  /** The three steps together. */
  lemma Concluded(q: Outgoing, message: string, headerEnd: nat)
    requires headerEnd + 4 <= |message|
    requires ParseRequestLine(FirstLine(q)).Good? <==> GoodLine(q.target, q.version)
    requires GoodLine(q.target, q.version) ==> ParseRequestLine(FirstLine(q)) == Good(RequestLine(q.verb, q.target, q.version))
    requires ReadAll(q.headers, NOTHING).Good? <==> AllPass(q.headers, NOTHING)
    requires AllPass(q.headers, NOTHING) ==> ReadAll(q.headers, NOTHING) == Good(Added(q.headers, NOTHING))
    requires var r := Assemble(message, headerEnd, RequestLine(q.verb, q.target, q.version), Added(q.headers, NOTHING));
             && (r.Good? <==> (q.version == "HTTP/1.1" ==> Has(q.headers, "host")) && BodyLength(q.headers) <= |q.body|)
             && (r.Good? ==> r.value == Meant(q))
    ensures var r := Parsed(message, headerEnd, ParseRequestLine(FirstLine(q)), ReadAll(q.headers, NOTHING));
            (r.Good? <==> Takes(q)) && (Takes(q) ==> r == Good(Meant(q)))
  {
    hide ParseRequestLine, FirstLine, Assemble, Meant, ReadAll, ProperFields, LengthClear, HostClear, Has, Added, BodyLength;
  }

  // ----- framing -----

  lemma LengthsOf(q: Outgoing)
    requires Written(q)
    ensures |HeadSection(q)| <= |EncodeRequest(q)|
    ensures ContentLength(EncodeRequest(q)[..|HeadSection(q)|]) == LengthAll(q.headers, None)
  {
    var message, headerEnd, lineEnd := EncodeRequest(q), |HeadSection(q)|, |FirstLine(q)|;
    assert q.headers == [] ==> HeaderLines(q.headers) == "" && headerEnd == lineEnd;
    assert q.headers == [] ==> LengthAll(q.headers, None) == Good(0);
    hide Find, FirstLine, HeaderLines, HeadSection, EncodeRequest, LengthAll, LengthFrom, TextAt, Lines, AllPlaced, At, FollowsLine, Written;
    HeadEnds(q);
    FirstLineEnds(q);
    SameFirstLine(message, headerEnd, lineEnd);
    EncodedLayout(q);
    var cursor := lineEnd + 2;
    hide ContentLength;
    if q.headers != [] {
      LengthsRead(message, cursor, q.headers, headerEnd, None, message[..headerEnd]);
      TextStarts(message, cursor, q.headers, headerEnd);
    }
    LengthStarts(message[..headerEnd], lineEnd, cursor);
  }

  lemma LengthStarts(headers: string, lineEnd: nat, cursor: nat)
    requires Find(headers, CRLF, 0) == (if lineEnd < |headers| then Some(lineEnd) else None) && cursor == lineEnd + 2
    ensures ContentLength(headers) == if lineEnd < |headers| then LengthFrom(headers, cursor, None) else Good(0)
  {
    hide Find;
  }

  lemma TextStarts(message: string, from: nat, headers: seq<Header>, headerEnd: nat)
    requires headers != [] && TextAt(message, from, Lines(headers), headerEnd)
    ensures from < headerEnd
  {
  }

  /** Where the server should see the request end. */
  function FrameOf(q: Outgoing, o: Limits): Frame {
    var head := |HeadSection(q)| + 4;
    if head + BodyLength(q.headers) > o.maxRequest then Refused(TooLarge)
    else if |q.body| < BodyLength(q.headers) then Incomplete
    else Framed(head + BodyLength(q.headers))
  }

  /** THE FRAMING SEES WHAT WAS WRITTEN.  A request is refused exactly when its head is too long, something leaves its
      length in doubt, or it is too large as a whole; otherwise it ends where its length says, or is awaited. */
  lemma RequestFrames(q: Outgoing, o: Limits)
    requires Written(q)
    ensures var f := RequestSize(EncodeRequest(q), o);
            if |HeadSection(q)| + 4 > o.maxHeader then f == Refused(HeaderLimit)
            else if !EdgelessNames(q.headers) || !LengthClear(q.headers) then f.Refused? && f.error !in {HeaderLimit, TooLarge}
            else f == FrameOf(q, o)
  {
    hide Find, ContentLength, HeadSection, EncodeRequest, LengthClear, EdgelessNames, LengthAll, Declared, AllPlaced;
    HeadEnds(q);
    LengthsOf(q);
    AllLengths(q.headers, None);
  }

  /** A request with nothing behind its body, within the limits. */
  predicate Fits(server: Server, q: Outgoing) {
    && Written(q) && Takes(q) && |q.body| == BodyLength(q.headers)
    && |HeadSection(q)| + 4 <= server.limits.maxHeader && |EncodeRequest(q)| <= server.limits.maxRequest
  }

  lemma ProperEdges(headers: seq<Header>)
    requires ProperFields(headers)
    ensures EdgelessNames(headers)
  {
    forall k | 0 <= k < |headers| ensures Edgeless(headers[k].name) {
      TokenIsEdgeless(headers[k].name);
    }
  }

  /** Within the limits, the framing cuts out exactly the request, so that the server accepts it. */
  lemma EncodedIsAcceptable(server: Server, q: Outgoing)
    requires ValidLimits(server.limits) && Fits(server, q)
    ensures Acceptable(server, EncodeRequest(q))
  {
    hide Find, ParseRequest, ContentLength, EncodeRequest, HeadSection, RequestSize, LengthClear, ProperFields, HostClear, Has, EdgelessNames, Declared, AllPlaced;
    RequestReads(q);
    HeadEnds(q);
    ProperEdges(q.headers);
    RequestFrames(q, server.limits);
  }

  function EncodeRequests(requests: seq<Outgoing>): (r: seq<string>)
    ensures |r| == |requests|
    ensures forall k :: 0 <= k < |r| ==> r[k] == EncodeRequest(requests[k])
  {
    seq(|requests|, k requires 0 <= k < |requests| => EncodeRequest(requests[k]))
  }

  predicate AllFit(server: Server, requests: seq<Outgoing>) {
    forall k :: 0 <= k < |requests| ==> Fits(server, requests[k])
  }

  /** The handler gets the request that was meant. */
  predicate HandedOn(text: string, q: Outgoing) {
    Takes(q) && ParseRequest(text) == Good(Meant(q))
  }

  /** CLIENT STREAMS.  Any list of well-formed requests within the limits is a stream the theorems on
      pipelining speak of, and each is handed to its handler as it was meant. */
  lemma ClientStream(server: Server, requests: seq<Outgoing>)
    requires ValidLimits(server.limits) && AllFit(server, requests)
    ensures AllAcceptable(server, EncodeRequests(requests))
    ensures forall k :: 0 <= k < |requests| ==> HandedOn(EncodeRequests(requests)[k], requests[k])
  {
    hide ParseRequest, EncodeRequest, HeadSection, Acceptable, Meant, Takes, Written, BodyLength;
    forall k | 0 <= k < |requests|
      ensures Acceptable(server, EncodeRequests(requests)[k]) && HandedOn(EncodeRequests(requests)[k], requests[k])
    {
      assert Fits(server, requests[k]);
      EncodedIsAcceptable(server, requests[k]);
      RequestReads(requests[k]);
    }
  }

  /** A length header written by the client is read as that length. */
  lemma LengthHeader(n: nat)
    requires n < SIZE_LIMIT
    ensures ParseSize(Numeral(n, 10)) == Some(n)
  {
    NumeralReads(n, 10);
    hide Numeral, Value;
    assert forall i :: 0 <= i < |Numeral(n, 10)| ==> '0' <= Numeral(n, 10)[i] <= '9';
  }
}
