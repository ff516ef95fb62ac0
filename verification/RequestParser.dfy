/** `wire::parse_request`, and its agreement with the framing that cut the request out. */
module RequestParser {
  import opened Text
  import opened Framing

  datatype Method = Get | Post | Put | Patch | Delete | Options | Head

  function ParseMethod(s: string): Option<Method> {
    if s == "GET" then Some(Get)
    else if s == "POST" then Some(Post)
    else if s == "PUT" then Some(Put)
    else if s == "PATCH" then Some(Patch)
    else if s == "DELETE" then Some(Delete)
    else if s == "OPTIONS" then Some(Options)
    else if s == "HEAD" then Some(Head)
    else None
  }

  /** `headers` lists the headers as they are set on the request, in order. */
  datatype Request = Request(verb: Method, target: string, version: string, headers: seq<Field>,
                             contentLength: Option<nat>, body: string)

  datatype RequestLine = RequestLine(verb: Method, target: string, version: string)

  function ParseRequestLine(line: string): Outcome<RequestLine> {
    match Find(line, " ", 0)
    case None => Fails(InvalidRequestLine)
    case Some(first) =>
      match Find(line, " ", first + 1)
      case None => Fails(InvalidRequestLine)
      case Some(second) =>
        var verb, target, version := ParseMethod(line[..first]), line[first + 1..second], line[second + 1..];
        if verb.None? then Fails(UnsupportedMethod)
        else if version != "HTTP/1.1" && version != "HTTP/1.0" then Fails(UnsupportedVersion)
        else if target == "" || target[0] != '/' then Fails(UnsupportedTarget)
        else Good(RequestLine(verb.value, target, version))
  }

  /** What the header lines read so far amount to. */
  datatype Seen = Seen(fields: seq<Field>, length: Option<nat>, host: bool, traceparents: nat)

  function ReadLine(line: string, seen: Seen): Outcome<Seen> {
    match Find(line, ":", 0)
    case None => Fails(InvalidHeader)
    case Some(colon) =>
      var name, value := line[..colon], Trim(line[colon + 1..]);
      if Trim(name) != name || !ValidName(name) || !ValidValue(value) then Fails(InvalidHeader)
      else
        var field := Field(Lower(name), value);
        if field.name == "host" && (seen.host || value == "") then Fails(InvalidHost)
        else match NoteLength(field, seen.length)
          case Fails(e) => Fails(e)
          case Good(length) =>
            Good(Seen(seen.fields + [field], length, seen.host || field.name == "host",
                      seen.traceparents + if field.name == "traceparent" then 1 else 0))
  }

  function BoundedEnd(message: string, headerEnd: nat, cursor: nat): (e: nat)
    requires cursor < headerEnd
    ensures cursor <= e <= headerEnd
  {
    match Find(message, CRLF, cursor)
    case None => headerEnd
    case Some(e) => if e > headerEnd then headerEnd else e
  }

  function LinesFrom(message: string, headerEnd: nat, cursor: nat, seen: Seen): Outcome<Seen>
    requires headerEnd <= |message|
    decreases headerEnd - cursor
  {
    if cursor >= headerEnd then Good(seen)
    else
      var end := BoundedEnd(message, headerEnd, cursor);
      match ReadLine(message[cursor..end], seen)
      case Fails(e) => Fails(e)
      case Good(now) => if end == headerEnd then Good(now) else LinesFrom(message, headerEnd, end + 2, now)
  }

  function Assemble(message: string, headerEnd: nat, line: RequestLine, seen: Seen): Outcome<Request>
    requires headerEnd + 4 <= |message|
  {
    var rest := message[headerEnd + 4..];
    if line.version == "HTTP/1.1" && !seen.host then Fails(MissingHost)
    else if seen.length.Some? && |rest| < seen.length.value then Fails(IncompleteBody)
    else
      var headers := if seen.traceparents > 1 then seen.fields + [Field("traceparent", "")] else seen.fields;
      Good(Request(line.verb, line.target, line.version, headers, seen.length,
                   if seen.length.Some? then rest[..seen.length.value] else ""))
  }

  function ParseRequest(message: string): Outcome<Request> {
    match Find(message, BLANK, 0)
    case None => Fails(IncompleteHeaders)
    case Some(headerEnd) =>
      match Find(message, CRLF, 0)
      case None => Fails(InvalidRequestLine)
      case Some(lineEnd) =>
        if lineEnd > headerEnd then Fails(InvalidRequestLine)
        else match ParseRequestLine(message[..lineEnd])
          case Fails(e) => Fails(e)
          case Good(line) =>
            match LinesFrom(message, headerEnd, lineEnd + 2, Seen([], None, false, 0))
            case Fails(e) => Fails(e)
            case Good(seen) => Assemble(message, headerEnd, line, seen)
  }

  method Parse(message: string) returns (r: Outcome<Request>)
    ensures r == ParseRequest(message)
  {
    hide Find, At, ReadLine, ParseRequestLine;
    var blank := Find(message, BLANK, 0);
    if blank.None? { return Fails(IncompleteHeaders); }
    var headerEnd := blank.value;
    var first := Find(message, CRLF, 0);
    if first.None? || first.value > headerEnd { return Fails(InvalidRequestLine); }
    BlankFits(message);
    var line := ParseRequestLine(message[..first.value]);
    if line.Fails? { return Fails(line.error); }
    var cursor, seen := first.value + 2, Seen([], None, false, 0);
    ghost var spec := LinesFrom(message, headerEnd, cursor, seen);
    while cursor < headerEnd
      invariant LinesFrom(message, headerEnd, cursor, seen) == spec
      decreases headerEnd - cursor
    {
      var end := BoundedEnd(message, headerEnd, cursor);
      var read := ReadLine(message[cursor..end], seen);
      if read.Fails? { return Fails(read.error); }
      seen := read.value;
      if end == headerEnd { break; }
      cursor := end + 2;
    }
    r := Assemble(message, headerEnd, line.value, seen);
  }

  lemma BlankFits(message: string)
    requires Find(message, BLANK, 0).Some?
    ensures Find(message, BLANK, 0).value + 4 <= |message|
  {
  }

  // ----- agreement -----

  /** No line end straddles the start of the blank line. */
  lemma NotAcross(message: string, headerEnd: nat)
    requires At(message, BLANK, headerEnd) && headerEnd >= 1
    ensures !At(message, CRLF, headerEnd - 1)
  {
    assert message[headerEnd..headerEnd + 4][0] == message[headerEnd];
    assert message[headerEnd - 1..headerEnd + 1][1] == message[headerEnd];
  }

  /** Up to the blank line both parsers see the same lines. */
  lemma SameLines(message: string, headerEnd: nat, cursor: nat)
    requires Find(message, BLANK, 0) == Some(headerEnd) && cursor < headerEnd
    ensures headerEnd + 4 <= |message|
    ensures BoundedEnd(message, headerEnd, cursor) == LineEnd(message[..headerEnd], cursor)
  {
    hide Find, At;
    FindFirst(message, BLANK, 0);
    FindFirst(message, CRLF, cursor);
    NotAcross(message, headerEnd);
    var headers, rest := message[..headerEnd], message[headerEnd..];
    assert message == headers + rest;
    FindAppend(headers, rest, CRLF, cursor);
  }

  lemma SameField(line: string, seen: Seen)
    requires ReadLine(line, seen).Good?
    ensures SplitField(line).Good?
    ensures NoteLength(SplitField(line).value, seen.length) == Good(ReadLine(line, seen).value.length)
  {
  }

  lemma {:induction false} SameLength(message: string, headerEnd: nat, cursor: nat, seen: Seen)
    requires Find(message, BLANK, 0) == Some(headerEnd) && headerEnd <= |message|
    requires LinesFrom(message, headerEnd, cursor, seen).Good?
    ensures var length := LinesFrom(message, headerEnd, cursor, seen).value.length;
            LengthFrom(message[..headerEnd], cursor, seen.length) == Good(if length.Some? then length.value else 0)
    decreases headerEnd - cursor
  {
    hide Find, ReadLine, SplitField, NoteLength, At;
    if cursor < headerEnd {
      SameLines(message, headerEnd, cursor);
      var headers, end := message[..headerEnd], BoundedEnd(message, headerEnd, cursor);
      var line := message[cursor..end];
      assert headers[cursor..end] == line;
      SameField(line, seen);
      var now := ReadLine(line, seen).value;
      if end < headerEnd {
        SameLength(message, headerEnd, end + 2, now);
      } else {
        assert LengthFrom(headers, end + 2, now.length) == Good(if now.length.Some? then now.length.value else 0);
      }
    }
  }

  lemma SameFirstLine(message: string, headerEnd: nat, lineEnd: nat)
    requires Find(message, BLANK, 0) == Some(headerEnd) && Find(message, CRLF, 0) == Some(lineEnd) && lineEnd <= headerEnd
    ensures headerEnd + 4 <= |message|
    ensures Find(message[..headerEnd], CRLF, 0) == if lineEnd < headerEnd then Some(lineEnd) else None
  {
    hide Find, At;
    if headerEnd > 0 {
      SameLines(message, headerEnd, 0);
      var headers, rest := message[..headerEnd], message[headerEnd..];
      assert message == headers + rest;
      FindAppend(headers, rest, CRLF, 0);
    }
  }

  lemma Accepted(message: string)
    requires ParseRequest(message).Good?
    ensures var blank, first := Find(message, BLANK, 0), Find(message, CRLF, 0);
            && blank.Some? && first.Some? && first.value <= blank.value && blank.value + 4 <= |message|
            && var lines := LinesFrom(message, blank.value, first.value + 2, Seen([], None, false, 0));
               lines.Good? && ParseRequest(message).value.contentLength == lines.value.length
  {
    hide Find, LinesFrom, ParseRequestLine;
    BlankFits(message);
  }

  /** Whatever request parse_request accepts, request_content_length reads the same length. */
  lemma LengthsAgree(message: string)
    requires ParseRequest(message).Good?
    ensures var blank, length := Find(message, BLANK, 0), ParseRequest(message).value.contentLength;
            && blank.Some? && blank.value + 4 <= |message|
            && ContentLength(message[..blank.value]) == Good(if length.Some? then length.value else 0)
  {
    hide Find, LengthFrom, ParseRequest, LinesFrom;
    Accepted(message);
    var headerEnd, lineEnd := Find(message, BLANK, 0).value, Find(message, CRLF, 0).value;
    SameFirstLine(message, headerEnd, lineEnd);
    if lineEnd < headerEnd {
      SameLength(message, headerEnd, lineEnd + 2, Seen([], None, false, 0));
    } else {
      NoLines(message, headerEnd, lineEnd + 2);
    }
  }

  lemma NoLines(message: string, headerEnd: nat, cursor: nat)
    requires headerEnd <= |message| && headerEnd <= cursor
    ensures LinesFrom(message, headerEnd, cursor, Seen([], None, false, 0)) == Good(Seen([], None, false, 0))
  {
  }

  /** TWO PARSERS AGREE.  When request_size frames a request and parse_request accepts the bytes cut
      out, the body is exactly what follows the header block, and its length is the one both read. */
  lemma ParsersAgree(buffer: string, o: Limits)
    requires ValidLimits(o) && RequestSize(buffer, o).Framed?
    requires ParseRequest(buffer[..RequestSize(buffer, o).size]).Good?
    ensures var n := RequestSize(buffer, o).size;
            var headerEnd, request := Find(buffer, BLANK, 0).value, ParseRequest(buffer[..n]).value;
            && headerEnd + 4 <= n <= |buffer|
            && request.body == buffer[headerEnd + 4..n]
            && (if request.contentLength.Some? then request.contentLength.value else 0) == n - (headerEnd + 4)
  {
    hide RequestSize, ParseRequest, Find, ContentLength, At;
    var n := RequestSize(buffer, o).size;
    CutIsFramed(buffer, o);
    FramedSize(buffer, o);
    var message := buffer[..n];
    assert buffer == message + buffer[n..];
    LengthsAgree(message);
    BodyIs(message);
    FindAppend(message, buffer[n..], BLANK, 0);
    var headerEnd := Find(buffer, BLANK, 0).value;
    assert message[..headerEnd] == buffer[..headerEnd];
    assert message[headerEnd + 4..] == buffer[headerEnd + 4..n];
  }

  lemma FramedSize(buffer: string, o: Limits)
    requires RequestSize(buffer, o).Framed?
    ensures var headerEnd := Find(buffer, BLANK, 0);
            && headerEnd.Some? && headerEnd.value + 4 <= RequestSize(buffer, o).size <= |buffer|
            && ContentLength(buffer[..headerEnd.value]) == Good(RequestSize(buffer, o).size - headerEnd.value - 4)
  {
    hide ContentLength, Find;
  }

  lemma BodyIs(message: string)
    requires ParseRequest(message).Good?
    ensures var headerEnd, request := Find(message, BLANK, 0).value, ParseRequest(message).value;
            && headerEnd + 4 <= |message|
            && request.body == if request.contentLength.Some? && request.contentLength.value <= |message| - (headerEnd + 4)
                               then message[headerEnd + 4..][..request.contentLength.value] else ""
  {
    hide Find, LinesFrom, ParseRequestLine;
    BlankFits(message);
  }
}
