/** HTTP/1 framing: where a request ends in the input buffer (`request_size`), and what
    `parse_request` makes of the bytes cut out there. */
module Framing {
  import opened Text

  // ----- strings -----

  const CRLF := "\r\n"
  const BLANK := "\r\n\r\n"

  predicate At(s: string, pat: string, i: nat) {
    i + |pat| <= |s| && s[i..i + |pat|] == pat
  }

  /** std::string_view::find: the first occurrence at or after `from`. */
  function Find(s: string, pat: string, from: nat): (r: Option<nat>)
    ensures r.Some? ==> from <= r.value && r.value + |pat| <= |s|
    decreases |s| - from
  {
    if from + |pat| > |s| then None
    else if At(s, pat, from) then Some(from)
    else Find(s, pat, from + 1)
  }

  /** There is an occurrence where one is found, and none before it. */
  lemma {:induction false} FindFirst(s: string, pat: string, from: nat)
    ensures var r := Find(s, pat, from);
            && (r.Some? ==> At(s, pat, r.value))
            && forall j :: from <= j && (r.Some? ==> j < r.value) ==> !At(s, pat, j)
    decreases |s| - from
  {
    if from + |pat| <= |s| && !At(s, pat, from) {
      FindFirst(s, pat, from + 1);
    }
  }

  lemma {:induction false} FindIs(s: string, pat: string, from: nat, i: nat)
    requires from <= i && At(s, pat, i) && forall j :: from <= j < i ==> !At(s, pat, j)
    ensures Find(s, pat, from) == Some(i)
    decreases i - from
  {
    if from < i {
      FindIs(s, pat, from + 1, i);
    }
  }

  lemma AtAppend(s: string, more: string, pat: string, i: nat)
    requires i + |pat| <= |s|
    ensures At(s + more, pat, i) == At(s, pat, i)
  {
    assert (s + more)[i..i + |pat|] == s[i..i + |pat|];
  }

  /** What is found stays found, at the same place, when more follows. */
  lemma {:induction false} FindAppend(s: string, more: string, pat: string, from: nat)
    ensures Find(s, pat, from).Some? ==> Find(s + more, pat, from) == Find(s, pat, from)
    ensures Find(s, pat, from).None? && Find(s + more, pat, from).Some? ==> Find(s + more, pat, from).value + |pat| > |s|
    decreases |s| - from
  {
    if from + |pat| <= |s| {
      AtAppend(s, more, pat, from);
      if !At(s, pat, from) {
        FindAppend(s, more, pat, from + 1);
      }
    }
  }

  lemma CharAt(s: string, c: char, i: nat)
    requires At(s, [c], i)
    ensures i < |s| && s[i] == c
  {
    assert s[i..i + 1][0] == s[i];
  }

  lemma FindAfter(front: string, c: char, back: string)
    requires c !in front
    ensures Find(front + [c] + back, [c], 0) == Some(|front|)
  {
    var s := front + [c] + back;
    forall j | 0 <= j < |front| ensures !At(s, [c], j) {
      assert s[j..j + 1][0] == front[j];
    }
    assert s[|front|..|front| + 1] == [c];
    FindIs(s, [c], 0, |front|);
  }

  lemma FindAbsent(s: string, c: char)
    requires c !in s
    ensures Find(s, [c], 0).None?
  {
    FindFirst(s, [c], 0);
    var r := Find(s, [c], 0);
    if r.Some? {
      CharAt(s, c, r.value);
    }
  }

  lemma LineFound(front: string, back: string)
    requires '\r' !in front
    ensures Find(front + CRLF + back, CRLF, 0) == Some(|front|)
  {
    var s := front + CRLF + back;
    forall j | 0 <= j < |front| ensures !At(s, CRLF, j) {
      assert j + 2 <= |s| ==> s[j..j + 2][0] == front[j];
    }
    assert s[|front|..|front| + 2] == CRLF;
    FindIs(s, CRLF, 0, |front|);
  }

  lemma LineEndChar(s: string, i: nat)
    requires At(s, CRLF, i)
    ensures i < |s| && s[i] == '\r'
  {
    assert s[i..i + 2][0] == s[i];
  }

  lemma NoLineFound(s: string)
    requires '\r' !in s
    ensures Find(s, CRLF, 0).None?
  {
    FindFirst(s, CRLF, 0);
    var r := Find(s, CRLF, 0);
    if r.Some? {
      LineEndChar(s, r.value);
    }
  }

  lemma AtShift(pre: string, s: string, post: string, pat: string, j: nat)
    requires j + |pat| <= |s|
    ensures At(pre + s + post, pat, |pre| + j) == At(s, pat, j)
  {
    var body := pre + s + post;
    assert body[|pre| + j..|pre| + j + |pat|] == s[j..j + |pat|];
  }

  /** No empty line before the end of the section. */
  ghost predicate Unbroken(section: string) {
    forall j :: 0 <= j < |section| ==> !At(section + BLANK, BLANK, j)
  }

  lemma BlankChars(s: string, j: nat)
    requires At(s, BLANK, j)
    ensures j + 4 <= |s| && s[j] == '\r' && s[j + 2] == '\r'
  {
    assert s[j..j + 4][0] == s[j] && s[j..j + 4][2] == s[j + 2];
  }

  lemma AtSlice(body: string, from: nat, to: nat, pat: string, j: nat)
    requires from <= j && j + |pat| <= to <= |body|
    ensures At(body, pat, j) == At(body[from..to], pat, j - from)
  {
    var slice, i, n := body[from..to], j - from, |pat|;
    var a, b := slice[i..i + n], body[j..j + n];
    assert |a| == |b| && forall k :: 0 <= k < |a| ==> a[k] == b[k];
    assert a == b;
  }

  lemma FindBlankAt(body: string, section: string, from: nat, end: nat)
    requires Unbroken(section) && end == from + |section| && end + 4 <= |body| && body[from..end + 4] == section + BLANK
    ensures Find(body, BLANK, from) == Some(end)
  {
    var s := section + BLANK;
    hide Find;
    forall j | from <= j < end ensures !At(body, BLANK, j) {
      AtSlice(body, from, end + 4, BLANK, j);
      assert !At(s, BLANK, j - from);
    }
    assert body[end..end + 4] == s[|section|..] == BLANK;
    FindIs(body, BLANK, from, end);
  }

  lemma FindBlank(pre: string, section: string, post: string)
    requires Unbroken(section)
    ensures Find(pre + section + BLANK + post, BLANK, |pre|) == Some(|pre| + |section|)
  {
    hide Find, Unbroken;
    var body, end := pre + section + BLANK + post, |pre| + |section|;
    assert body[|pre|..end + 4] == section + BLANK;
    FindBlankAt(body, section, |pre|, end);
  }

  predicate IsBlank(c: char) {
    c == ' ' || c == '\t'
  }

  function TrimLeft(s: string): string {
    if s != "" && IsBlank(s[0]) then TrimLeft(s[1..]) else s
  }

  function TrimRight(s: string): string {
    if s != "" && IsBlank(s[|s| - 1]) then TrimRight(s[..|s| - 1]) else s
  }

  function Trim(s: string): string {
    TrimRight(TrimLeft(s))
  }

  function LowerChar(c: char): char {
    if 'A' <= c <= 'Z' then c - 'A' + 'a' else c
  }

  function Lower(s: string): string {
    if s == "" then "" else [LowerChar(s[0])] + Lower(s[1..])
  }

  lemma TrimKeeps(s: string)
    requires s == "" || (!IsBlank(s[0]) && !IsBlank(s[|s| - 1]))
    ensures Trim(s) == s
  {
  }

  lemma TrimSpace(s: string)
    requires s != "" && !IsBlank(s[0]) && !IsBlank(s[|s| - 1])
    ensures Trim(" " + s) == s
  {
    assert (" " + s)[1..] == s;
    assert TrimLeft(" " + s) == TrimLeft(s);
  }

  lemma {:induction false} LowerIs(s: string, t: string)
    requires |s| == |t| && forall i :: 0 <= i < |s| ==> LowerChar(s[i]) == t[i]
    ensures Lower(s) == t
  {
    if s != "" {
      LowerIs(s[1..], t[1..]);
    }
  }

  /** security::valid_header_name. */
  predicate ValidName(s: string) {
    s != "" && forall i :: 0 <= i < |s| ==> 0x20 as char < s[i] < 0x7f as char && s[i] !in "()<>@,;:\\\"/[]?={} \t"
  }

  /** security::valid_header_value. */
  predicate ValidValue(s: string) {
    forall i :: 0 <= i < |s| ==>
      s[i] != '\r' && s[i] != '\n' && s[i] != 0x7f as char && (s[i] >= 0x20 as char || s[i] == '\t')
  }

  const SIZE_LIMIT := 0x1_0000_0000_0000_0000

  /** std::from_chars on a size_t that must use up the whole text. */
  function ParseSize(s: string): Option<nat> {
    if s != "" && (forall i :: 0 <= i < |s| ==> '0' <= s[i] <= '9') && Value(s, 10) < SIZE_LIMIT
    then Some(Value(s, 10)) else None
  }

  // ----- outcomes -----

  datatype HttpError =
    | HeaderLimit | TooLarge
    | InvalidHeader | InvalidHeaderName | DuplicateLength | InvalidLength | TransferEncoding
    | IncompleteHeaders | InvalidRequestLine | UnsupportedMethod | UnsupportedVersion | UnsupportedTarget
    | InvalidHost | MissingHost | IncompleteBody

  datatype Outcome<+T> = Good(value: T) | Fails(error: HttpError)

  // ----- request_content_length -----

  datatype Field = Field(name: string, value: string)    // the name in lower case

  /** The line from `cursor` up to the next line end or the end of the text. */
  function LineEnd(headers: string, cursor: nat): (e: nat)
    requires cursor <= |headers|
    ensures cursor <= e <= |headers|
  {
    match Find(headers, CRLF, cursor)
    case Some(e) => e
    case None => |headers|
  }

  function SplitField(line: string): Outcome<Field> {
    match Find(line, ":", 0)
    case None => Fails(InvalidHeader)
    case Some(colon) =>
      if Trim(line[..colon]) != line[..colon] then Fails(InvalidHeaderName)
      else Good(Field(Lower(line[..colon]), Trim(line[colon + 1..])))
  }

  /** What one field does to the content length seen so far. */
  function NoteLength(field: Field, seen: Option<nat>): Outcome<Option<nat>> {
    if field.name == "content-length" then
      if seen.Some? then Fails(DuplicateLength)
      else match ParseSize(field.value)
        case None => Fails(InvalidLength)
        case Some(n) => Good(Some(n))
    else if field.name == "transfer-encoding" then Fails(TransferEncoding)
    else Good(seen)
  }

  function LengthFrom(headers: string, cursor: nat, seen: Option<nat>): Outcome<nat>
    decreases |headers| - cursor
  {
    if cursor >= |headers| then Good(if seen.Some? then seen.value else 0)
    else
      var end := LineEnd(headers, cursor);
      match SplitField(headers[cursor..end])
      case Fails(e) => Fails(e)
      case Good(field) =>
        match NoteLength(field, seen)
        case Fails(e) => Fails(e)
        case Good(now) => LengthFrom(headers, end + 2, now)
  }

  function ContentLength(headers: string): Outcome<nat> {
    match Find(headers, CRLF, 0)
    case None => Good(0)
    case Some(end) => LengthFrom(headers, end + 2, None)
  }

  method RequestContentLength(headers: string) returns (r: Outcome<nat>)
    ensures r == ContentLength(headers)
  {
    hide Find, SplitField, NoteLength, At;
    var first := Find(headers, CRLF, 0);
    if first.None? { return Good(0); }
    var cursor, seen := first.value + 2, None;
    while cursor < |headers|
      invariant LengthFrom(headers, cursor, seen) == ContentLength(headers)
      decreases |headers| - cursor
    {
      var lineEnd := Find(headers, CRLF, cursor);
      var end := if lineEnd.None? then |headers| else lineEnd.value;
      var field := SplitField(headers[cursor..end]);
      if field.Fails? { return Fails(field.error); }
      var noted := NoteLength(field.value, seen);
      if noted.Fails? { return Fails(noted.error); }
      seen := noted.value;
      if lineEnd.None? { break; }
      cursor := end + 2;
    }
    return Good(if seen.Some? then seen.value else 0);
  }

  // ----- request_size -----

  datatype Limits = Limits(maxHeader: nat, maxRequest: nat)

  /** What the server insists on when it starts. */
  predicate ValidLimits(o: Limits) {
    1 <= o.maxHeader <= o.maxRequest
  }

  datatype Frame = Incomplete | Framed(size: nat) | Refused(error: HttpError)

  function RequestSize(buffer: string, o: Limits): (f: Frame)
    ensures f.Framed? ==> 4 <= f.size <= |buffer|
  {
    match Find(buffer, BLANK, 0)
    case None =>
      if |buffer| > o.maxHeader then Refused(HeaderLimit)
      else if |buffer| > o.maxRequest then Refused(TooLarge)
      else Incomplete
    case Some(headerEnd) =>
      var headerSize := headerEnd + 4;
      if headerSize > o.maxHeader then Refused(HeaderLimit)
      else match ContentLength(buffer[..headerEnd])
        case Fails(e) => Refused(e)
        case Good(bodySize) =>
          if headerSize > o.maxRequest || bodySize > o.maxRequest - headerSize then Refused(TooLarge)
          else if |buffer| < headerSize + bodySize then Incomplete
          else Framed(headerSize + bodySize)
  }

  /** A framing result, good or bad, is not changed by anything that arrives later. */
  lemma FramingIsStable(buffer: string, more: string, o: Limits)
    requires ValidLimits(o) && !RequestSize(buffer, o).Incomplete?
    ensures RequestSize(buffer + more, o) == RequestSize(buffer, o)
  {
    FindAppend(buffer, more, BLANK, 0);
    var r := Find(buffer, BLANK, 0);
    if r.Some? {
      assert (buffer + more)[..r.value] == buffer[..r.value];
    }
  }

  /** Until the whole request is there, the server waits; it never refuses the beginning of a
      request it would accept. */
  lemma PrefixIsIncomplete(buffer: string, k: nat, o: Limits)
    requires ValidLimits(o) && RequestSize(buffer, o).Framed? && k < RequestSize(buffer, o).size
    ensures k <= |buffer| && RequestSize(buffer[..k], o) == Incomplete
  {
    var n := RequestSize(buffer, o).size;
    var front := buffer[..k];
    assert buffer == front + buffer[k..];
    FindAppend(front, buffer[k..], BLANK, 0);
    var r := Find(front, BLANK, 0);
    if r.Some? {
      assert front[..r.value] == buffer[..r.value];
    }
  }

  /** A framed request, cut out, is framed as a whole. */
  lemma CutIsFramed(buffer: string, o: Limits)
    requires ValidLimits(o) && RequestSize(buffer, o).Framed?
    ensures var n := RequestSize(buffer, o).size;
            4 <= n <= |buffer| && RequestSize(buffer[..n], o) == Framed(n)
  {
    var n := RequestSize(buffer, o).size;
    var front := buffer[..n];
    assert buffer == front + buffer[n..];
    FindAppend(front, buffer[n..], BLANK, 0);
    var headerEnd := Find(buffer, BLANK, 0).value;
    assert front[..headerEnd] == buffer[..headerEnd];
  }
}
