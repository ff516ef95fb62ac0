/** Parsing what a client sends: the encoding of any list of parts, whose contents hold no delimiter
    line, is read back as exactly those parts. */
module MultipartRoundTrip {
  import opened Text
  import opened Framing
  import opened Multipart

  // ----- parameters -----

  predicate Printable(s: string) {
    forall i :: 0 <= i < |s| ==> !Control(s[i])
  }

  /** Quotes and backslashes are escaped (section 4.2 of RFC 7578 quotes names; section 5.6.4 of RFC 9110). */
  function Escape(s: string): string {
    if s == "" then ""
    else (if s[0] == '"' || s[0] == '\\' then ['\\', s[0]] else [s[0]]) + Escape(s[1..])
  }

  type Attribute = (string, string)

  function Attributes(list: seq<Attribute>): string {
    if list == [] then ""
    else "; " + list[0].0 + "=\"" + Escape(list[0].1) + "\"" + Attributes(list[1..])
  }

  function Assigned(values: map<string, string>, list: seq<Attribute>): map<string, string>
    decreases |list|
  {
    if list == [] then values else Assigned(values[list[0].0 := list[0].1], list[1..])
  }

  /** A name as parameters are compared: a token in lower case. */
  predicate Plain(name: string) {
    ValidName(name) && Lower(name) == name
  }

  ghost predicate GoodAttributes(values: map<string, string>, list: seq<Attribute>)
    decreases |list|
  {
    list == [] ||
    (Plain(list[0].0) && Printable(list[0].1) && list[0].0 !in values
     && GoodAttributes(values[list[0].0 := list[0].1], list[1..]))
  }

  lemma {:induction false} QuotedReads(s: string, value: string, rest: string)
    requires Printable(s)
    ensures Quoted(Escape(s) + "\"" + rest, value) == Some((value + s, rest))
    decreases |s|
  {
    var text := Escape(s) + "\"" + rest;
    if s == "" {
      assert text == "\"" + rest;
      assert text[1..] == rest;
      assert value + s == value;
    } else {
      assert !Control(s[0]);
      QuotedReads(s[1..], value + [s[0]], rest);
      assert value + [s[0]] + s[1..] == value + s;
      var tail := Escape(s[1..]) + "\"" + rest;
      if s[0] == '"' || s[0] == '\\' {
        assert text == ['\\', s[0]] + tail;
        assert text[2..] == tail;
      } else {
        assert text == [s[0]] + tail;
        assert text[1..] == tail;
      }
    }
  }

  lemma {:induction false} AttributesEnd(list: seq<Attribute>)
    ensures Attributes(list) == "" || (|Attributes(list)| >= 2 && Attributes(list)[0] == ';' && Attributes(list)[1] == ' '
                                       && Attributes(list)[|Attributes(list)| - 1] == '"')
  {
    if list != [] {
      AttributesEnd(list[1..]);
    }
  }

  lemma ValueReads(value: string, more: string)
    requires Printable(value)
    requires more == "" || (more[0] == ';' && !IsBlank(more[|more| - 1]))
    ensures ParameterValue("\"" + Escape(value) + "\"" + more) == Some((value, more))
  {
    var quoted := "\"" + Escape(value) + "\"" + more;
    QuotedReads(value, "", more);
    assert "" + value == value;
    assert quoted[1..] == Escape(value) + "\"" + more;
    hide Quoted, Escape;
    TrimKeeps(more);
  }

  /** One attribute and whatever follows, read up to the next semicolon. */
  lemma AttributeReads(name: string, value: string, more: string, values: map<string, string>)
    requires Plain(name) && Printable(value) && name !in values
    requires more == "" || (more[0] == ';' && !IsBlank(more[|more| - 1]))
    ensures var input := " " + name + "=\"" + Escape(value) + "\"" + more;
            ParametersFrom(input, values) ==
              (if more == "" then Some(values[name := value])
               else if Trim(more[1..]) == "" then None
               else ParametersFrom(more[1..], values[name := value]))
  {
    hide Quoted, Escape, ParameterValue, Find, Lower, TrimLeft, TrimRight, Trim;
    var quoted := "\"" + Escape(value) + "\"" + more;
    var text := name + ['='] + quoted;
    var input := " " + name + "=\"" + Escape(value) + "\"" + more;
    assert input == " " + text;
    assert !IsBlank(name[0]) && !IsBlank(name[|name| - 1]);
    assert text[|text| - 1] == quoted[|quoted| - 1];
    TrimSpace(text);
    FindAfter(name, '=', quoted);
    assert text[..|name|] == name && text[|name| + 1..] == quoted;
    TrimKeeps(name);
    TrimKeeps(quoted);
    ValueReads(value, more);
  }

  lemma AttributesSplit(list: seq<Attribute>)
    requires list != []
    ensures Attributes(list)[1..] == " " + list[0].0 + "=\"" + Escape(list[0].1) + "\"" + Attributes(list[1..])
    ensures list[1..] != [] ==> Attributes(list[1..]) != ""
  {
    var name, value, more := list[0].0, Escape(list[0].1), Attributes(list[1..]);
    assert Attributes(list) == "; " + name + "=\"" + value + "\"" + more;
    assert list[1..] != [] ==> more != "";
    hide Escape, Attributes;
    DropSemicolon(name, value, more);
  }

  lemma DropSemicolon(name: string, value: string, more: string)
    ensures ("; " + name + "=\"" + value + "\"" + more)[1..] == " " + name + "=\"" + value + "\"" + more
  {
  }

  /** PARAMETERS ROUND TRIP.  Any list of distinct attributes is read back as it was written. */
  lemma {:induction false} AttributesRead(list: seq<Attribute>, values: map<string, string>)
    requires list != [] && GoodAttributes(values, list)
    ensures ParametersFrom(Attributes(list)[1..], values) == Some(Assigned(values, list))
    decreases |list|
  {
    hide ParametersFrom, Plain, Printable, Escape, Trim;
    var name, value, more := list[0].0, list[0].1, Attributes(list[1..]);
    AttributesEnd(list[1..]);
    AttributeReads(name, value, more, values);
    AttributesSplit(list);
    hide Attributes;
    if list[1..] != [] {
      AttributesRead(list[1..], values[name := value]);
      NotBlank(more[1..]);
    }
  }

  lemma NotBlank(s: string)
    requires s != "" && !IsBlank(s[|s| - 1])
    ensures Trim(s) != ""
  {
    TrimLeftStops(s);
  }

  lemma {:induction false} TrimLeftStops(s: string)
    requires s != "" && !IsBlank(s[|s| - 1])
    ensures var t := TrimLeft(s); t != "" && t[|t| - 1] == s[|s| - 1]
  {
    if IsBlank(s[0]) {
      TrimLeftStops(s[1..]);
    }
  }

  lemma ParametersRoundTrip(kind: string, list: seq<Attribute>)
    requires kind != "" && ';' !in kind && !IsBlank(kind[0]) && !IsBlank(kind[|kind| - 1]) && Lower(kind) == kind
    requires GoodAttributes(map[], list)
    ensures ParseParameters(kind + Attributes(list)) == Some(Parameters(kind, Assigned(map[], list)))
  {
    var input := kind + Attributes(list);
    TrimKeeps(kind);
    if list == [] {
      assert input == kind;
      FindAbsent(input, ';');
    } else {
      AttributesRead(list, map[]);
      AttributesEnd(list);
      var rest := Attributes(list)[1..];
      assert input == kind + [';'] + rest;
      FindAfter(kind, ';', rest);
      assert input[..|kind|] == kind && input[|kind| + 1..] == rest;
    }
  }

  // ----- parts -----

  datatype Part = Part(name: string, filename: Option<string>, contentType: Option<string>, bytes: string)

  function AttributesOf(p: Part): seq<Attribute> {
    [("name", p.name)] + (if p.filename.Some? then [("filename", p.filename.value)] else [])
  }

  function DispositionName(): string {
    "Content-Disposition"
  }

  function TypeName(): string {
    "Content-Type"
  }

  function DispositionValue(p: Part): string {
    "form-data" + Attributes(AttributesOf(p))
  }

  function Line(name: string, value: string): string {
    name + ": " + value
  }

  function Lines(name: string, value: string, name2: string, value2: Option<string>): string {
    if value2.None? then Line(name, value) else Line(name, value) + CRLF + Line(name2, value2.value)
  }

  function Section(p: Part): string {
    Lines(DispositionName(), DispositionValue(p), TypeName(), p.contentType)
  }

  function EncodePart(p: Part): string {
    Section(p) + BLANK + p.bytes + CRLF
  }

  function Encode(marker: string, parts: seq<Part>): string {
    if parts == [] then marker + "--" + CRLF
    else marker + CRLF + EncodePart(parts[0]) + Encode(marker, parts[1..])
  }

  /** The content holds no delimiter line, not even at its very beginning or end. */
  ghost predicate Clean(marker: string, bytes: string) {
    var s := CRLF + bytes + CRLF;
    forall p :: 2 <= p < 2 + |bytes| ==> DelimiterAt(s, marker, p).None?
  }

  /** A header value as it is stored: no control characters and no blanks around it. */
  predicate Solid(value: string) {
    ValidValue(value) && value != "" && !IsBlank(value[0]) && !IsBlank(value[|value| - 1])
  }

  /** What a client can put into the two header lines. */
  predicate Sendable(p: Part) {
    && Printable(p.name)
    && (p.filename.Some? ==> Printable(p.filename.value))
    && (p.contentType.Some? ==> Solid(p.contentType.value))
  }

  /** The form a list of parts amounts to, or the reason it is refused, without any text. */
  function Gather(parts: seq<Part>, form: Form, count: nat, a: Allowance): Result<Form>
    decreases |parts|
  {
    if parts == [] then Ok(form)
    else if count + 1 > a.parts || |Section(parts[0])| > a.header then Oversized
    else if !GoodName(parts[0].name) then Malformed
    else
      match Store(form, Head(parts[0].name, parts[0].filename, parts[0].contentType), parts[0].bytes, a)
      case Malformed => Malformed
      case Oversized => Oversized
      case Ok(more) => Gather(parts[1..], more, count + 1, a)
  }

  // ----- the header lines of a part -----

  /** One header line and whatever lines follow. */
  lemma HeaderReads(name: string, value: string, more: Option<string>, headers: map<string, string>)
    requires ValidName(name) && ValidValue(value) && Lower(name) !in headers
    requires value != "" && !IsBlank(value[0]) && !IsBlank(value[|value| - 1])
    ensures HeadersFrom(if more.None? then Line(name, value) else Line(name, value) + CRLF + more.value, headers) ==
              (if more.None? then Some(headers[Lower(name) := value])
               else HeadersFrom(more.value, headers[Lower(name) := value]))
  {
    hide Find, Lower, Trim;
    var line := name + ": " + value;
    assert '\r' !in line;
    assert line == name + [':'] + (" " + value);
    FindAfter(name, ':', " " + value);
    assert line[..|name|] == name && line[|name| + 1..] == " " + value;
    TrimSpace(value);
    if more.None? {
      NoLineFound(line);
    } else {
      var section := line + CRLF + more.value;
      LineFound(line, more.value);
      assert section[..|line|] == line && section[|line| + 2..] == more.value;
    }
  }

  lemma HeaderNames()
    ensures ValidName(DispositionName()) && ValidName(TypeName())
    ensures Lower(DispositionName()) == "content-disposition" && Lower(TypeName()) == "content-type"
    ensures Lower(DispositionName()) != Lower(TypeName())
  {
    hide Lower, ValidName;
    LettersAreValid(DispositionName());
    LettersAreValid(TypeName());
    LowerIs(DispositionName(), "content-disposition");
    LowerIs(TypeName(), "content-type");
  }

  predicate Letter(c: char) {
    'a' <= c <= 'z' || 'A' <= c <= 'Z' || c == '-'
  }

  lemma LetterIsValid(c: char)
    requires Letter(c)
    ensures 0x20 as char < c < 0x7f as char && c !in "()<>@,;:\\\"/[]?={} \t"
  {
  }

  /** Letters and hyphens make a valid name. */
  lemma LettersAreValid(s: string)
    requires s != "" && forall i :: 0 <= i < |s| ==> Letter(s[i])
    ensures ValidName(s)
  {
    forall i | 0 <= i < |s| ensures 0x20 as char < s[i] < 0x7f as char && s[i] !in "()<>@,;:\\\"/[]?={} \t" {
      LetterIsValid(s[i]);
    }
  }

  lemma PlainNames()
    ensures Plain("name") && Plain("filename")
  {
    hide ValidName, Lower;
    LettersAreValid("name");
    LowerIs("name", "name");
    LettersAreValid("filename");
    LowerIs("filename", "filename");
  }

  lemma PlainBoundary()
    ensures Plain("boundary")
  {
    hide ValidName, Lower;
    LettersAreValid("boundary");
    LowerIs("boundary", "boundary");
  }

  lemma {:induction false} EscapePrints(s: string)
    requires Printable(s)
    ensures ValidValue(Escape(s))
  {
    if s != "" {
      EscapePrints(s[1..]);
    }
  }

  lemma {:induction false} AttributesValid(list: seq<Attribute>)
    requires forall k :: 0 <= k < |list| ==> ValidName(list[k].0) && Printable(list[k].1)
    ensures ValidValue(Attributes(list))
  {
    if list != [] {
      AttributesValid(list[1..]);
      EscapePrints(list[0].1);
      hide Escape;
    }
  }

  lemma AttributesGood(p: Part)
    requires Sendable(p)
    ensures GoodAttributes(map[], AttributesOf(p))
    ensures forall k :: 0 <= k < |AttributesOf(p)| ==> ValidName(AttributesOf(p)[k].0) && Printable(AttributesOf(p)[k].1)
    ensures Assigned(map[], AttributesOf(p)) ==
              if p.filename.None? then map["name" := p.name] else map["name" := p.name, "filename" := p.filename.value]
  {
    PlainNames();
    hide Lower, Printable, ValidName;
    var list := AttributesOf(p);
    var one: map<string, string> := map["name" := p.name];
    assert list[0] == ("name", p.name);
    assert Assigned(one, []) == one;
    if p.filename.Some? {
      var two := one["filename" := p.filename.value];
      var rest := [("filename", p.filename.value)];
      assert list[1..] == rest && rest[1..] == [];
      assert Assigned(two, []) == two;
      assert Assigned(one, rest) == two;
      assert GoodAttributes(one, rest);
    } else {
      assert list[1..] == [];
    }
  }

  lemma AttributesPresent(p: Part)
    ensures Attributes(AttributesOf(p)) != ""
  {
  }

  lemma DispositionReads(p: Part)
    requires Sendable(p)
    ensures ParseParameters(DispositionValue(p)) == Some(Parameters("form-data", Assigned(map[], AttributesOf(p))))
    ensures ValidValue(DispositionValue(p)) && DispositionValue(p)[0] == 'f'
    ensures DispositionValue(p)[|DispositionValue(p)| - 1] == '"'
  {
    hide ParseParameters, Lower, Escape, Attributes, AttributesOf, GoodAttributes, Assigned, Sendable, Printable;
    AttributesGood(p);
    LowerIs("form-data", "form-data");
    ParametersRoundTrip("form-data", AttributesOf(p));
    AttributesValid(AttributesOf(p));
    AttributesEnd(AttributesOf(p));
    AttributesPresent(p);
  }

  /** The two header lines, as a map. */
  function HeadersOf(p: Part): map<string, string> {
    var first := map[Lower(DispositionName()) := DispositionValue(p)];
    if p.contentType.None? then first else first[Lower(TypeName()) := p.contentType.value]
  }

  lemma LinesRead(name: string, value: string, name2: string, value2: Option<string>)
    requires ValidName(name) && Solid(value) && ValidName(name2) && (value2.Some? ==> Solid(value2.value))
    requires Lower(name) != Lower(name2)
    ensures var first := map[Lower(name) := value];
            HeadersFrom(Lines(name, value, name2, value2), map[]) ==
              Some(if value2.None? then first else first[Lower(name2) := value2.value])
  {
    hide HeadersFrom, ValidName, ValidValue, Lower, Line;
    if value2.None? {
      HeaderReads(name, value, None, map[]);
    } else {
      HeaderReads(name, value, Some(Line(name2, value2.value)), map[]);
      HeaderReads(name2, value2.value, None, map[Lower(name) := value]);
    }
  }

  lemma SectionReads(p: Part)
    requires Sendable(p)
    ensures HeadersFrom(Section(p), map[]) == Some(HeadersOf(p))
  {
    assert Solid(DispositionValue(p)) by { DispositionReads(p); }
    assert ValidName(DispositionName()) && ValidName(TypeName()) && Lower(DispositionName()) != Lower(TypeName()) by {
      HeaderNames();
    }
    hide Lower, HeadersFrom, ValidName, ValidValue, DispositionValue, DispositionName, TypeName, Lines, Solid, Printable;
    assert p.contentType.Some? ==> Solid(p.contentType.value);
    LinesRead(DispositionName(), DispositionValue(p), TypeName(), p.contentType);
  }

  lemma HeadersHold(p: Part)
    ensures var headers := HeadersOf(p);
            && Lookup(headers, "content-disposition") == Some(DispositionValue(p))
            && Lookup(headers, "content-transfer-encoding") == None
            && Lookup(headers, "content-type") == p.contentType
  {
    HeaderNames();
    hide DispositionValue, DispositionName, TypeName, Lower, ValidName;
  }

  lemma AttributesHold(p: Part)
    requires Sendable(p)
    ensures var values := Assigned(map[], AttributesOf(p));
            && Lookup(values, "name") == Some(p.name) && Lookup(values, "filename*") == None
            && Lookup(values, "filename") == p.filename
  {
    hide Assigned, AttributesOf, GoodAttributes, ValidName, Printable, Sendable;
    AttributesGood(p);
    if p.filename.Some? {
      TwoValues(p.name, p.filename.value);
    }
  }

  lemma TwoValues(name: string, filename: string)
    ensures var values := map["name" := name, "filename" := filename];
            && Lookup(values, "name") == Some(name) && Lookup(values, "filename*") == None
            && Lookup(values, "filename") == Some(filename)
  {
  }

  /** A part's header lines are read as what they say. */
  lemma HeadReads(p: Part)
    requires Sendable(p)
    ensures ReadHead(Section(p)) == if GoodName(p.name) then Ok(Head(p.name, p.filename, p.contentType)) else Malformed
  {
    SectionReads(p);
    DispositionReads(p);
    HeadersHold(p);
    AttributesHold(p);
    hide ParseParameters, HeadersFrom, HeadersOf, Assigned, GoodName, ValidName, ValidValue, DispositionValue,
         AttributesOf, Section, Sendable;
  }
}
