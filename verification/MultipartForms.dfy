/** The body as a whole: parsing the encoding of any list of parts yields the form those parts
    amount to. */
module MultipartForms {
  import opened Text
  import opened Framing
  import opened Multipart
  import opened MultipartRoundTrip

  // ----- looking into the middle of a body -----

  lemma LinesUnbroken(name: string, value: string, name2: string, value2: Option<string>)
    requires ValidName(name) && ValidValue(value) && ValidName(name2)
    requires value2.Some? ==> ValidValue(value2.value)
    ensures Unbroken(Lines(name, value, name2, value2))
  {
    var line := Line(name, value);
    var section := Lines(name, value, name2, value2);
    var s := section + BLANK;
    assert forall i :: 0 <= i < |line| ==> s[i] == line[i];
    assert forall i :: 0 <= i < |line| ==> line[i] != '\r';
    if value2.Some? {
      var second := Line(name2, value2.value);
      assert forall i :: 0 <= i < |second| ==> s[|line| + 2 + i] == second[i];
      assert forall i :: 0 <= i < |second| ==> second[i] != '\r';
    }
    forall j | 0 <= j < |section| ensures !At(s, BLANK, j) {
      if At(s, BLANK, j) {
        BlankChars(s, j);
      }
    }
  }

  // ----- delimiters -----

  lemma {:induction false} TrimLeftAppend(s: string, more: string)
    requires s != "" && !IsBlank(s[|s| - 1])
    ensures TrimLeft(s + more) == TrimLeft(s) + more
  {
    if IsBlank(s[0]) {
      assert (s + more)[1..] == s[1..] + more;
      TrimLeftAppend(s[1..], more);
    }
  }

  ghost predicate EndsLineAt(s: string) {
    |s| >= 2 && s[|s| - 2] == '\r' && s[|s| - 1] == '\n'
  }

  lemma StartsAppend(s: string, more: string, pat: string)
    requires EndsLineAt(s) && OneLine(pat)
    ensures Starts(s + more, pat) == Starts(s, pat)
    ensures Starts(s, pat) ==> EndsLineAt(s[|pat|..])
  {
    if |pat| <= |s| {
      assert (s + more)[..|pat|] == s[..|pat|];
      if Starts(s, pat) {
        assert forall i :: 0 <= i < |pat| ==> s[i] == s[..|pat|][i] && pat[i] in pat;
      }
    } else if Starts(s + more, pat) {
      PrefixChar(s + more, pat, |s| - 2);
    }
  }

  lemma PrefixChar(s: string, pat: string, i: nat)
    requires Starts(s, pat) && i < |pat|
    ensures s[i] == pat[i] && s[i] in pat
  {
    assert s[..|pat|][i] == s[i];
  }

  /** Whether a delimiter stands at the front of a text is settled by the time its line ends. */
  lemma MarkedAppend(s: string, more: string, marker: string)
    requires EndsLineAt(s) && OneLine(marker)
    ensures Marked(s + more, marker) == Marked(s, marker)
  {
    StartsAppend(s, more, marker);
    if Starts(s, marker) {
      var after := s[|marker|..];
      assert (s + more)[|marker|..] == after + more;
      StartsAppend(after, more, "--");
      var last := Starts(after, "--");
      var rest := if last then after[2..] else after;
      assert last ==> (after + more)[2..] == rest + more;
      TrimLeftAppend(rest, more);
      TrimLeftStops(rest);
      var tail := TrimLeft(rest);
      hide TrimLeft;
      assert |tail| == 1 || (tail + more)[..2] == tail[..2];
      TailWhole(rest);
    }
  }

  lemma {:induction false} TailWhole(rest: string)
    requires EndsLineAt(rest)
    ensures EndsLineAt(TrimLeft(rest))
  {
    if IsBlank(rest[0]) {
      TailWhole(rest[1..]);
    }
  }

  /** Clean content holds no delimiter wherever it stands in a body. */
  lemma CleanInBody(body: string, pre: string, bytes: string, post: string, marker: string, p: nat)
    requires body == pre + (CRLF + bytes + CRLF) + post && OneLine(marker) && Clean(marker, bytes)
    requires |pre| + 2 <= p < |pre| + |bytes| + 4
    ensures DelimiterAt(body, marker, p).None?
  {
    var s := CRLF + bytes + CRLF;
    var q := p - |pre|;
    assert body[p..] == s[q..] + post;
    if q < 2 + |bytes| {
      assert DelimiterAt(s, marker, q).None?;
      AtShift(pre, s, post, CRLF, q - 2);
      assert EndsLineAt(s[q..]);
      hide Marked, At, OneLine, Clean;
      MarkedAppend(s[q..], post, marker);
    } else {
      assert body[p] == '\r' || body[p] == '\n';
      NotMarked(body[p..], marker);
      hide Marked;
    }
  }

  lemma NotMarked(s: string, marker: string)
    requires OneLine(marker) && s != "" && (s[0] == '\r' || s[0] == '\n')
    ensures Marked(s, marker).None?
  {
    if Starts(s, marker) {
      PrefixChar(s, marker, 0);
    }
  }

  /** Content on lines of its own in a body. */
  ghost predicate Stands(body: string, pre: string, bytes: string, post: string) {
    body == pre + (CRLF + bytes + CRLF) + post
  }

  /** From the start of clean content, the next delimiter is the one after it. */
  lemma ContentEnds(body: string, pre: string, bytes: string, post: string, marker: string, from: nat, to: nat)
    requires Stands(body, pre, bytes, post) && OneLine(marker) && Clean(marker, bytes)
    requires from == |pre| + 2 && to == |pre| + |bytes| + 4
    ensures FirstDelimiter(body, marker, from) == FirstDelimiter(body, marker, to)
  {
    hide DelimiterAt, Clean, FirstDelimiter, OneLine;
    forall p | from <= p < to && p <= |body| ensures DelimiterAt(body, marker, p).None? {
      CleanInBody(body, pre, bytes, post, marker, p);
    }
    SkipTo(body, marker, from, to);
  }

  lemma MarkedOpen(marker: string, rest: string)
    ensures Marked(marker + CRLF + rest, marker) == Some((|marker| + 2, false))
  {
    var text := marker + CRLF + rest;
    var after := CRLF + rest;
    assert text[..|marker|] == marker && text[|marker|..] == after;
    assert after[..2] == CRLF;
    assert TrimLeft(after) == after;
    hide TrimLeft;
  }

  lemma MarkedClose(marker: string)
    ensures Marked(marker + "--" + CRLF, marker) == Some((|marker| + 4, true))
  {
    var text := marker + "--" + CRLF;
    var after := "--" + CRLF;
    assert text[..|marker|] == marker && text[|marker|..] == after;
    assert after[..2] == "--" && after[2..] == CRLF;
    assert TrimLeft(CRLF) == CRLF;
    hide TrimLeft;
  }

  /** The first line of an encoding is a delimiter, closing when nothing follows. */
  lemma Leads(front: string, marker: string, parts: seq<Part>)
    requires OneLine(marker) && (front == "" || EndsLineAt(front))
    ensures var body := front + Encode(marker, parts);
            var length := |marker| + (if parts == [] then 4 else 2);
            DelimiterAt(body, marker, |front|) == Some(Delimiter(|front|, |front| + length, parts == []))
  {
    hide Marked, EncodePart, Encode, DelimiterAt, StartsLine, OneLine;
    var text := Encode(marker, parts);
    var length := |marker| + (if parts == [] then 4 else 2);
    assert Marked(text, marker) == Some((length, parts == [])) by { EncodeMarked(marker, parts); }
    LineBegun(front, text);
    DelimiterIs(front, text, marker, length, parts == []);
  }

  lemma EncodeMarked(marker: string, parts: seq<Part>)
    ensures Marked(Encode(marker, parts), marker) == Some((|marker| + (if parts == [] then 4 else 2), parts == []))
  {
    hide Marked, EncodePart;
    if parts == [] {
      MarkedClose(marker);
    } else {
      EncodeSplit(marker, parts);
      MarkedOpen(marker, EncodePart(parts[0]) + Encode(marker, parts[1..]));
    }
  }

  lemma DelimiterIs(front: string, text: string, marker: string, length: nat, last: bool)
    requires StartsLine(front + text, |front|) && Marked(text, marker) == Some((length, last))
    ensures DelimiterAt(front + text, marker, |front|) == Some(Delimiter(|front|, |front| + length, last))
  {
    hide Marked, StartsLine;
    assert (front + text)[|front|..] == text;
  }

  lemma LineBegun(front: string, text: string)
    requires front == "" || EndsLineAt(front)
    ensures StartsLine(front + text, |front|)
  {
    if front != "" {
      assert (front + text)[|front| - 2..|front|] == CRLF;
    }
  }

  lemma EncodeSplit(marker: string, parts: seq<Part>)
    requires parts != []
    ensures Encode(marker, parts) == marker + CRLF + (EncodePart(parts[0]) + Encode(marker, parts[1..]))
  {
    hide EncodePart;
    assert Encode(marker, parts) == marker + CRLF + EncodePart(parts[0]) + Encode(marker, parts[1..]);
  }

  // ----- parts -----

  /** Where a part's header, content and end lie in a body. */
  ghost predicate Laid(body: string, pre: string, section: string, bytes: string, post: string) {
    body == pre + (section + BLANK + bytes + CRLF) + post
  }

  lemma PartLayout(body: string, pre: string, section: string, bytes: string, post: string)
    requires Laid(body, pre, section, bytes, post)
    ensures body == pre + section + BLANK + (bytes + CRLF + post)
  {
  }

  lemma ContentStands(body: string, pre: string, section: string, bytes: string, post: string) returns (lead: string)
    requires Laid(body, pre, section, bytes, post)
    ensures Stands(body, lead, bytes, post) && |lead| == |pre| + |section| + 2
  {
    lead := pre + section + CRLF;
    assert BLANK == CRLF + CRLF;
  }

  function Between(body: string, from: int, to: int): string {
    if 0 <= from <= to <= |body| then body[from..to] else ""
  }

  lemma PartSlices(body: string, pre: string, section: string, bytes: string, post: string)
    requires Laid(body, pre, section, bytes, post)
    ensures var headerEnd := |pre| + |section|;
            && headerEnd + 6 + |bytes| <= |body| && Between(body, |pre|, headerEnd) == section
            && Between(body, headerEnd + 4, headerEnd + 4 + |bytes|) == bytes
  {
  }

  lemma HeaderEnds(body: string, pre: string, section: string, bytes: string, post: string)
    requires Laid(body, pre, section, bytes, post) && Unbroken(section)
    ensures Find(body, BLANK, |pre|) == Some(|pre| + |section|)
  {
    hide Find, Unbroken;
    PartLayout(body, pre, section, bytes, post);
    FindBlank(pre, section, bytes + CRLF + post);
  }

  lemma ContentReads(body: string, pre: string, section: string, bytes: string, post: string, marker: string,
                     from: nat, to: nat)
    requires Laid(body, pre, section, bytes, post) && OneLine(marker) && Clean(marker, bytes)
    requires from == |pre| + |section| + 4 && to == |pre| + |section| + |bytes| + 6 <= |body|
    requires DelimiterAt(body, marker, to).Some?
    ensures FirstDelimiter(body, marker, from) == DelimiterAt(body, marker, to)
  {
    hide DelimiterAt, FirstDelimiter, Clean, OneLine, Laid, Stands;
    FirstHere(body, marker, to);
    var lead := ContentStands(body, pre, section, bytes, post);
    ContentEnds(body, lead, bytes, post, marker, from, to);
  }

  lemma ReadPartIs(body: string, marker: string, begin: nat, headerEnd: nat, next: Delimiter, a: Allowance)
    requires begin <= headerEnd && Find(body, BLANK, begin) == Some(headerEnd)
    requires FirstDelimiter(body, marker, headerEnd + 4) == Some(next) && next.position >= headerEnd + 6
    ensures ReadPart(body, marker, begin, a) ==
              if headerEnd - begin > a.header then Oversized
              else match ReadHead(Between(body, begin, headerEnd))
                case Ok(head) => Ok((head, Between(body, headerEnd + 4, next.position - 2), next))
                case Malformed => Malformed
                case Oversized => Oversized
  {
    hide Find, ReadHead, FirstDelimiter;
  }

  /** One part laid out in a body and followed by a delimiter. */
  lemma LaidReads(body: string, pre: string, section: string, bytes: string, post: string, marker: string, next: Delimiter,
                  a: Allowance)
    requires Laid(body, pre, section, bytes, post) && Unbroken(section) && OneLine(marker) && Clean(marker, bytes)
    requires |pre| + |section| + |bytes| + 6 <= |body|
    requires DelimiterAt(body, marker, |pre| + |section| + |bytes| + 6) == Some(next)
    ensures ReadPart(body, marker, |pre|, a) ==
              if |section| > a.header then Oversized
              else match ReadHead(section)
                case Ok(head) => Ok((head, bytes, next))
                case Malformed => Malformed
                case Oversized => Oversized
  {
    hide Laid, Between, Find, ReadHead, ReadPart, FirstDelimiter, DelimiterAt, Unbroken, OneLine, Clean;
    PartSlices(body, pre, section, bytes, post);
    HeaderEnds(body, pre, section, bytes, post);
    ContentReads(body, pre, section, bytes, post, marker, |pre| + |section| + 4, |pre| + |section| + |bytes| + 6);
    assert next.position == |pre| + |section| + |bytes| + 6;
    ReadPartIs(body, marker, |pre|, |pre| + |section|, next, a);
  }

  lemma EncodedLaid(body: string, pre: string, p: Part, post: string)
    requires body == pre + EncodePart(p) + post
    ensures Laid(body, pre, Section(p), p.bytes, post)
    ensures |EncodePart(p)| == |Section(p)| + |p.bytes| + 6 && |pre| + |EncodePart(p)| <= |body|
  {
    hide Section;
  }

  /** One encoded part, followed by a delimiter, is read as it was written. */
  lemma PartReads(body: string, pre: string, p: Part, post: string, marker: string, next: Delimiter, a: Allowance)
    requires body == pre + EncodePart(p) + post && Sendable(p) && OneLine(marker) && Clean(marker, p.bytes)
    requires DelimiterAt(body, marker, |pre| + |EncodePart(p)|) == Some(next)
    ensures ReadPart(body, marker, |pre|, a) ==
              if |Section(p)| > a.header then Oversized
              else if !GoodName(p.name) then Malformed
              else Ok((Head(p.name, p.filename, p.contentType), p.bytes, next))
  {
    hide Section, ReadHead, GoodName, Clean, DelimiterAt, Sendable, OneLine, Unbroken, ReadPart, EncodePart, Laid;
    SectionUnbroken(p);
    HeadReads(p);
    EncodedLaid(body, pre, p, post);
    LaidReads(body, pre, Section(p), p.bytes, post, marker, next, a);
  }

  lemma SectionUnbroken(p: Part)
    requires Sendable(p)
    ensures Unbroken(Section(p))
  {
    assert ValidName(DispositionName()) && ValidName(TypeName()) by {
      HeaderNames();
    }
    DispositionReads(p);
    hide DispositionName, TypeName, DispositionValue, ParseParameters, ValidName, ValidValue, Assigned, AttributesOf;
    LinesUnbroken(DispositionName(), DispositionValue(p), TypeName(), p.contentType);
  }

  ghost predicate AllSendable(marker: string, parts: seq<Part>) {
    forall k :: 0 <= k < |parts| ==> Sendable(parts[k]) && Clean(marker, parts[k].bytes)
  }

  lemma BodySplit(front: string, marker: string, parts: seq<Part>)
    requires parts != []
    ensures var pre := front + marker + CRLF;
            && front + Encode(marker, parts) == pre + EncodePart(parts[0]) + Encode(marker, parts[1..])
            && EndsLineAt(pre + EncodePart(parts[0]))
  {
    EncodeSplit(marker, parts);
    assert EndsLineAt(EncodePart(parts[0])) by { hide Section; }
    hide Encode, EncodePart;
  }

  lemma {:induction false} PartsRead(front: string, marker: string, parts: seq<Part>, form: Form, count: nat, a: Allowance)
    requires OneLine(marker) && (front == "" || EndsLineAt(front)) && AllSendable(marker, parts)
    ensures var body := front + Encode(marker, parts);
            var current := DelimiterAt(body, marker, |front|);
            current.Some? && PartsFrom(body, marker, current.value, form, count, a) == Gather(parts, form, count, a)
    decreases |parts|
  {
    hide DelimiterAt, Encode, EncodePart, Section, GoodName, Store, ReadPart, OneLine, Sendable, Clean, EndsLineAt;
    var body := front + Encode(marker, parts);
    Leads(front, marker, parts);
    if parts != [] {
      var p, rest := parts[0], parts[1..];
      var pre := front + marker + CRLF;
      var front' := pre + EncodePart(p);
      BodySplit(front, marker, parts);
      Leads(front', marker, rest);
      var next := DelimiterAt(body, marker, |front'|).value;
      PartReads(body, pre, p, Encode(marker, rest), marker, next, a);
      var head := Head(p.name, p.filename, p.contentType);
      if ReadPart(body, marker, |pre|, a).Ok? && Store(form, head, p.bytes, a).Ok? {
        PartsRead(front', marker, rest, Store(form, head, p.bytes, a).value, count + 1, a);
      }
    }
  }

  function ContentType(boundary: string): string {
    "multipart/form-data" + Attributes([("boundary", boundary)])
  }

  lemma ContentTypeReads(boundary: string)
    requires ValidBoundary(boundary)
    ensures ParseParameters(ContentType(boundary)) == Some(Parameters("multipart/form-data", map["boundary" := boundary]))
  {
    hide ParseParameters, ValidBoundary, Attributes, GoodAttributes, Assigned, Lower, Plain;
    BoundaryAttribute(boundary);
    LowerIs("multipart/form-data", "multipart/form-data");
    ParametersRoundTrip("multipart/form-data", [("boundary", boundary)]);
  }

  lemma BoundaryAttribute(boundary: string)
    requires ValidBoundary(boundary)
    ensures GoodAttributes(map[], [("boundary", boundary)])
    ensures Assigned(map[], [("boundary", boundary)]) == map["boundary" := boundary]
  {
    assert Printable(boundary) by {
      forall i | 0 <= i < |boundary| ensures !Control(boundary[i]) {
        BoundaryPrints(boundary[i]);
      }
    }
    hide Plain, Printable, ValidBoundary;
    PlainBoundary();
    OneAttribute("boundary", boundary);
  }

  lemma BoundaryPrints(c: char)
    requires BoundaryChar(c)
    ensures !Control(c)
  {
  }

  lemma OneAttribute(name: string, value: string)
    requires Plain(name) && Printable(value)
    ensures GoodAttributes(map[], [(name, value)]) && Assigned(map[], [(name, value)]) == map[name := value]
  {
    hide Plain, Printable;
    var list := [(name, value)];
    var one: map<string, string> := map[name := value];
    assert list[1..] == [];
    assert GoodAttributes(one, []) && Assigned(one, []) == one;
  }

  /** The content type announces a form with this boundary, among whatever other parameters. */
  ghost predicate Announces(contentType: string, boundary: string) {
    var read := ParseParameters(contentType);
    && read.Some? && read.value.kind == "multipart/form-data"
    && "boundary" in read.value.values && read.value.values["boundary"] == boundary
  }

  /** Text before the first delimiter line, up to a line end, that holds none itself. */
  ghost predicate Preamble(front: string, marker: string, body: string) {
    (front == "" || EndsLineAt(front)) && |front| <= |body| && forall p :: 0 <= p < |front| ==> DelimiterAt(body, marker, p).None?
  }

  /** The same for any spelling of the content type, behind any preamble. */
  lemma FormReadBehind(contentType: string, boundary: string, front: string, parts: seq<Part>, a: Allowance, body: string)
    requires Announces(contentType, boundary) && ValidBoundary(boundary) && AllSendable("--" + boundary, parts)
    requires body == front + Encode("--" + boundary, parts) && Preamble(front, "--" + boundary, body) && |body| <= a.body
    ensures ParseMultipart(contentType, body, a) == Gather(parts, EMPTY, 0, a)
  {
    var marker := "--" + boundary;
    assert OneLine(marker) by { MarkerIsOneLine(boundary); }
    hide ParseParameters, ValidBoundary, OneLine, Gather, PartsFrom, Encode, DelimiterAt, FirstDelimiter, AllSendable;
    PartsRead(front, marker, parts, EMPTY, 0, a);
    SkipTo(body, marker, 0, |front|);
    FirstHere(body, marker, |front|);
  }

  /** A body over the limit is too large; one that no delimiter opens, or whose content type announces no form with a
      good boundary, is malformed. */
  lemma FormRefused(contentType: string, body: string, a: Allowance)
    ensures |body| > a.body ==> ParseMultipart(contentType, body, a) == Oversized
    ensures |body| <= a.body && (forall boundary :: Announces(contentType, boundary) ==> !ValidBoundary(boundary)) ==>
              ParseMultipart(contentType, body, a) == Malformed
    ensures |body| <= a.body && (forall boundary :: Announces(contentType, boundary) ==> NoDelimiter(body, "--" + boundary)) ==>
              ParseMultipart(contentType, body, a) == Malformed
  {
    hide ParseParameters, ValidBoundary, PartsFrom, DelimiterAt, FirstDelimiter;
    var read := ParseParameters(contentType);
    if read.Some? && "boundary" in read.value.values && read.value.kind == "multipart/form-data" {
      var boundary := read.value.values["boundary"];
      assert Announces(contentType, boundary);
      if NoDelimiter(body, "--" + boundary) {
        SkipTo(body, "--" + boundary, 0, |body| + 1);
        NoneBehind(body, "--" + boundary, |body| + 1);
      }
    }
  }

  ghost predicate NoDelimiter(body: string, marker: string) {
    forall p :: 0 <= p <= |body| ==> DelimiterAt(body, marker, p).None?
  }

  lemma NoneBehind(body: string, marker: string, start: nat)
    requires start > |body|
    ensures FirstDelimiter(body, marker, start).None?
  {
  }

  /** EVERY FORM.  For any boundary and any parts whose contents hold no delimiter line, parsing the
      encoded body gives what the list of parts amounts to: its form, or the same refusal. */
  lemma FormRead(boundary: string, parts: seq<Part>, a: Allowance)
    requires ValidBoundary(boundary) && AllSendable("--" + boundary, parts)
    requires |Encode("--" + boundary, parts)| <= a.body
    ensures ParseMultipart(ContentType(boundary), Encode("--" + boundary, parts), a) == Gather(parts, EMPTY, 0, a)
  {
    var marker := "--" + boundary;
    ContentTypeReads(boundary);
    assert OneLine(marker) by { MarkerIsOneLine(boundary); }
    hide ParseParameters, ContentType, ValidBoundary, OneLine, Gather, PartsFrom, Encode, DelimiterAt;
    PartsRead("", marker, parts, EMPTY, 0, a);
    var body := Encode(marker, parts);
    assert "" + body == body;
  }

  // ----- the form of acceptable parts -----

  predicate IsFile(p: Part) {
    p.filename.Some?
  }

  /** An upload field left empty by the user. */
  predicate Unused(p: Part) {
    p.filename == Some("") && p.bytes == ""
  }

  predicate GoodFile(p: Part) {
    && p.filename.Some? && SafeName(p.filename.value) && BaseName(p.filename.value) !in {"", ".", ".."}
    && MediaType(p.contentType).Some?
  }

  /** Each part by itself: a name, a size and, for a file, a file name and a media type in order. */
  ghost predicate Acceptable(p: Part, a: Allowance) {
    && GoodName(p.name) && |Section(p)| <= a.header
    && (if IsFile(p) then |p.bytes| <= a.file && (Unused(p) || GoodFile(p)) else |p.bytes| <= a.field && !Listed(p.name))
  }

  /** No key is used for a field and for a file. */
  ghost predicate KeysApart(parts: seq<Part>) {
    forall i, j :: 0 <= i < |parts| && 0 <= j < |parts| && IsFile(parts[i]) && !IsFile(parts[j]) ==>
      Key(parts[i].name) != parts[j].name
  }

  function Uploaded(p: Part): seq<Upload> {
    if IsFile(p) && !Unused(p) && MediaType(p.contentType).Some? then
      [Upload(p.name, BaseName(p.filename.value), MediaType(p.contentType).value, p.bytes)]
    else []
  }

  function FilesOf(parts: seq<Part>): seq<Upload> {
    if parts == [] then [] else Uploaded(parts[0]) + FilesOf(parts[1..])
  }

  function FieldsOf(parts: seq<Part>, fields: map<string, string>): map<string, string>
    decreases |parts|
  {
    if parts == [] then fields
    else FieldsOf(parts[1..], if IsFile(parts[0]) then fields else fields[parts[0].name := parts[0].bytes])
  }

  /** What is stored already does not stand in the way of the parts to come. */
  ghost predicate Compatible(form: Form, parts: seq<Part>) {
    && (forall i :: 0 <= i < |parts| && IsFile(parts[i]) ==> Key(parts[i].name) !in form.fields)
    && (forall i, k :: 0 <= i < |parts| && 0 <= k < |form.files| && !IsFile(parts[i]) ==>
          Key(form.files[k].name) != parts[i].name)
  }

  function Stored(form: Form, p: Part): Form {
    if IsFile(p) then form.(files := form.files + Uploaded(p)) else form.(fields := form.fields[p.name := p.bytes])
  }

  lemma StoreAccepts(form: Form, parts: seq<Part>, a: Allowance)
    requires parts != [] && Compatible(form, parts) && Acceptable(parts[0], a)
    ensures var p := parts[0];
            Store(form, Head(p.name, p.filename, p.contentType), p.bytes, a) == Ok(Stored(form, p))
  {
    hide MediaType, BaseName, IsText, GoodName, Section;
    var p := parts[0];
    if IsFile(p) {
      assert Key(p.name) !in form.fields;
      assert Unused(p) ==> form.files + [] == form.files;
    } else {
      assert Key(p.name) == p.name;
    }
  }

  lemma StaysCompatible(form: Form, parts: seq<Part>)
    requires parts != [] && Compatible(form, parts) && KeysApart(parts)
    ensures Compatible(Stored(form, parts[0]), parts[1..])
  {
    hide MediaType, BaseName, Key;
    var rest := parts[1..];
    assert forall i :: 0 <= i < |rest| ==> rest[i] == parts[i + 1];
  }

  lemma KeysApartRest(parts: seq<Part>)
    requires parts != [] && KeysApart(parts)
    ensures KeysApart(parts[1..])
  {
    var rest := parts[1..];
    assert forall i :: 0 <= i < |rest| ==> rest[i] == parts[i + 1];
  }

  lemma GatherStep(parts: seq<Part>, form: Form, count: nat, a: Allowance)
    requires parts != [] && count + 1 <= a.parts && |Section(parts[0])| <= a.header && GoodName(parts[0].name)
    requires var p := parts[0];
             Store(form, Head(p.name, p.filename, p.contentType), p.bytes, a) == Ok(Stored(form, p))
    ensures Gather(parts, form, count, a) == Gather(parts[1..], Stored(form, parts[0]), count + 1, a)
  {
    hide Store, Stored, GoodName, Section;
  }

  ghost predicate AllAcceptable(parts: seq<Part>, a: Allowance) {
    forall k :: 0 <= k < |parts| ==> Acceptable(parts[k], a)
  }

  lemma FirstAccepted(parts: seq<Part>, form: Form, count: nat, a: Allowance)
    requires parts != [] && Compatible(form, parts) && KeysApart(parts) && count + |parts| <= a.parts
    requires AllAcceptable(parts, a)
    ensures Gather(parts, form, count, a) == Gather(parts[1..], Stored(form, parts[0]), count + 1, a)
    ensures Compatible(Stored(form, parts[0]), parts[1..]) && KeysApart(parts[1..]) && AllAcceptable(parts[1..], a)
  {
    assert Acceptable(parts[0], a);
    hide Gather, Store, Stored, GoodName, Section, Compatible, KeysApart;
    StoreAccepts(form, parts, a);
    StaysCompatible(form, parts);
    KeysApartRest(parts);
    GatherStep(parts, form, count, a);
  }

  function StoredAll(form: Form, parts: seq<Part>): Form
    decreases |parts|
  {
    if parts == [] then form else StoredAll(Stored(form, parts[0]), parts[1..])
  }

  lemma {:induction false} GatherAccepts(parts: seq<Part>, form: Form, count: nat, a: Allowance)
    requires Compatible(form, parts) && KeysApart(parts) && count + |parts| <= a.parts && AllAcceptable(parts, a)
    ensures Gather(parts, form, count, a) == Ok(StoredAll(form, parts))
    decreases |parts|
  {
    if parts != [] {
      hide Gather, Compatible, KeysApart, AllAcceptable, Stored;
      FirstAccepted(parts, form, count, a);
      GatherAccepts(parts[1..], Stored(form, parts[0]), count + 1, a);
    }
  }

  lemma {:induction false} StoredFields(parts: seq<Part>, form: Form)
    ensures StoredAll(form, parts).fields == FieldsOf(parts, form.fields)
    decreases |parts|
  {
    if parts != [] {
      hide Uploaded;
      StoredFields(parts[1..], Stored(form, parts[0]));
    }
  }

  lemma {:induction false} StoredFiles(parts: seq<Part>, form: Form)
    ensures StoredAll(form, parts).files == form.files + FilesOf(parts)
    decreases |parts|
  {
    if parts == [] {
      assert form.files + FilesOf(parts) == form.files;
    } else {
      hide Uploaded, Stored;
      var next := Stored(form, parts[0]);
      StoredFiles(parts[1..], next);
      FieldsUploadNothing(form, parts[0]);
      assert next.files + FilesOf(parts[1..]) == form.files + (Uploaded(parts[0]) + FilesOf(parts[1..]));
    }
  }

  lemma FieldsUploadNothing(form: Form, p: Part)
    ensures Stored(form, p).files == form.files + Uploaded(p)
  {
    if !IsFile(p) {
      assert Uploaded(p) == [];
    }
  }

  /** MULTIPART ROUND TRIP.  Acceptable parts come back as exactly their fields and files, in order,
      files under the base name of their file name. */
  lemma FormRoundTrip(boundary: string, parts: seq<Part>, a: Allowance)
    requires ValidBoundary(boundary) && AllSendable("--" + boundary, parts)
    requires |Encode("--" + boundary, parts)| <= a.body && |parts| <= a.parts
    requires KeysApart(parts) && AllAcceptable(parts, a)
    ensures ParseMultipart(ContentType(boundary), Encode("--" + boundary, parts), a)
         == Ok(Form(FieldsOf(parts, map[]), FilesOf(parts)))
  {
    FormRead(boundary, parts, a);
    GatherAccepts(parts, EMPTY, 0, a);
    StoredFields(parts, EMPTY);
    StoredFiles(parts, EMPTY);
    hide ParseMultipart, Gather, StoredAll, Encode, ContentType;
    assert [] + FilesOf(parts) == FilesOf(parts);
  }

  ghost predicate DistinctFields(parts: seq<Part>) {
    forall i, j :: 0 <= i < j < |parts| && !IsFile(parts[i]) && !IsFile(parts[j]) ==> parts[i].name != parts[j].name
  }

  lemma {:induction false} FieldKept(parts: seq<Part>, fields: map<string, string>, name: string)
    requires name in fields && forall j :: 0 <= j < |parts| && !IsFile(parts[j]) ==> parts[j].name != name
    ensures name in FieldsOf(parts, fields) && FieldsOf(parts, fields)[name] == fields[name]
    decreases |parts|
  {
    if parts != [] {
      FieldKept(parts[1..], if IsFile(parts[0]) then fields else fields[parts[0].name := parts[0].bytes], name);
    }
  }

  /** With distinct names every field has its own content. */
  lemma {:induction false} FieldHasContent(parts: seq<Part>, fields: map<string, string>, k: nat)
    requires k < |parts| && !IsFile(parts[k]) && DistinctFields(parts)
    ensures parts[k].name in FieldsOf(parts, fields) && FieldsOf(parts, fields)[parts[k].name] == parts[k].bytes
    decreases |parts|
  {
    var next := if IsFile(parts[0]) then fields else fields[parts[0].name := parts[0].bytes];
    if k == 0 {
      FieldKept(parts[1..], next, parts[0].name);
    } else {
      FieldHasContent(parts[1..], next, k - 1);
    }
  }
}
