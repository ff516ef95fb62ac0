/** Exactly what the multipart reader takes and refuses: names, file names, media types, boundaries, delimiter lines
    and the headers of a part, each against its description in the standards. */
module MultipartExact {
  import opened Text
  import opened Framing
  import opened HeaderFields
  import opened Multipart
  import opened MultipartParameters

  // ----- names -----

  /** A key: none of the characters that address parts of it. */
  predicate PlainKey(key: string) {
    key != "" && forall i :: 0 <= i < |key| ==> key[i] != '.' && key[i] != '[' && key[i] != ']' && key[i] != '*'
  }

  lemma KeyChars(name: string)
    ensures GoodName(name) <==> SafeName(name) && PlainKey(Key(name))
  {
    hide SafeName, Key;
    assert forall c: char :: c !in ".[]*" <==> c != '.' && c != '[' && c != ']' && c != '*';
  }

  lemma KeyIs(name: string, key: string)
    requires PlainKey(key)
    ensures name == key ==> Key(name) == key && !Listed(name)
    ensures name == key + "[]" ==> Key(name) == key && Listed(name)
  {
    if name == key && |name| >= 2 {
      assert name[|name| - 2..][0] == name[|name| - 2];
    }
  }

  lemma KeySplits(name: string)
    ensures name == if Listed(name) then Key(name) + "[]" else Key(name)
  {
  }

  /** A part's name is a plain key, or a plain key with brackets behind it for a list of files. */
  lemma NameExactly(name: string, key: string)
    ensures GoodName(name) && Key(name) == key <==> SafeName(name) && PlainKey(key) && (name == key || name == key + "[]")
  {
    hide SafeName;
    KeyChars(name);
    KeySplits(name);
    if PlainKey(key) {
      KeyIs(name, key);
    }
    hide Key, Listed;
  }

  /** The stored file name is what stands behind the last slash of either kind. */
  lemma {:induction false} BaseNameIs(filename: string) returns (front: string)
    ensures filename == front + BaseName(filename)
    ensures '/' !in BaseName(filename) && '\\' !in BaseName(filename)
    ensures front == "" || front[|front| - 1] == '/' || front[|front| - 1] == '\\'
  {
    if filename == "" {
      front := "";
    } else {
      var last, rest := filename[|filename| - 1], filename[..|filename| - 1];
      assert last in "/\\" <==> last == '/' || last == '\\';
      assert filename == rest + [last];
      if last in "/\\" {
        front := filename;
      } else {
        front := BaseNameIs(rest);
      }
    }
  }

  /** FILE NAMES EXACTLY.  Among all ends of the file name, the one stored is the longest without a slash. */
  lemma BaseNameExactly(filename: string, base: string)
    ensures base == BaseName(filename) <==>
            exists front :: filename == front + base && '/' !in base && '\\' !in base
                            && (front == "" || front[|front| - 1] == '/' || front[|front| - 1] == '\\')
  {
    var front := BaseNameIs(filename);
    if other :| filename == other + base && '/' !in base && '\\' !in base
                && (other == "" || other[|other| - 1] == '/' || other[|other| - 1] == '\\') {
      SameBase(front, BaseName(filename), other, base);
    }
  }

  lemma SameBase(a: string, x: string, b: string, y: string)
    requires a + x == b + y && '/' !in x && '\\' !in x && '/' !in y && '\\' !in y
    requires a == "" || a[|a| - 1] == '/' || a[|a| - 1] == '\\'
    requires b == "" || b[|b| - 1] == '/' || b[|b| - 1] == '\\'
    ensures x == y
  {
    var s, t := a + x, b + y;
    assert forall i :: |a| <= i < |s| ==> s[i] == x[i - |a|];
    assert forall i :: |b| <= i < |t| ==> t[i] == y[i - |b|];
    assert b != "" ==> t[|b| - 1] == b[|b| - 1];
    assert a != "" ==> s[|a| - 1] == a[|a| - 1];
    assert |a| == |b|;
    assert x == s[|a|..] && y == t[|b|..];
  }

  // ----- media types -----

  /** A type and a subtype. */
  predicate MediaKind(kind: string) {
    exists i :: 0 <= i < |kind| && kind[i] == '/' && Token(kind[..i]) && Token(kind[i + 1..])
  }

  lemma MediaSlash(kind: string, i: nat)
    requires i < |kind| && kind[i] == '/' && Token(kind[..i])
    ensures Find(kind, "/", 0) == Some(i)
  {
    var front := kind[..i];
    assert '/' !in front;
    SplitAt(kind, i);
    FindAfter(front, '/', kind[i + 1..]);
  }

  lemma MediaFound(kind: string)
    ensures MediaKind(kind) <==>
            var slash := Find(kind, "/", 0);
            slash.Some? && slash.value < |kind| && ValidName(kind[..slash.value]) && ValidName(kind[slash.value + 1..])
  {
    hide Find, ValidName, Token;
    var slash := Find(kind, "/", 0);
    if slash.Some? {
      FoundChar(kind, '/', slash.value);
      NameIsToken(kind[..slash.value]);
      NameIsToken(kind[slash.value + 1..]);
    }
    if i :| 0 <= i < |kind| && kind[i] == '/' && Token(kind[..i]) && Token(kind[i + 1..]) {
      MediaSlash(kind, i);
    }
  }

  /** MEDIA TYPES EXACTLY.  A file without a declared type is a stream of octets; a declared type is taken, in small
      letters and without its parameters, exactly when it is a type and a subtype with parameters in order. */
  lemma MediaTypeExactly(contentType: string, media: string)
    ensures MediaType(None) == Some("application/octet-stream")
    ensures MediaType(Some(contentType)) == Some(media) <==>
            MediaKind(media) && exists d :: GoodDoc(d) && contentType == DocText(d) && DocMeans(d).Some? && Folded(d.kind) == media
  {
    hide Find, ValidName, ParseParameters, GoodDoc, DocText, MediaKind, ParamsMean, Folded;
    MediaFound(media);
    var parsed := ParseParameters(contentType);
    if parsed.Some? && parsed.value.kind == media {
      ParametersExactly(contentType, parsed.value);
    }
    if d :| GoodDoc(d) && contentType == DocText(d) && DocMeans(d).Some? && Folded(d.kind) == media {
      ParametersExactly(contentType, DocMeans(d).value);
    }
  }

  // ----- boundaries -----

  /** Digits, letters, and ' ( ) + _ , - . / : = ? and the blank, by their codes. */
  predicate BoundaryCode(code: int) {
    || code == 32 || 39 <= code <= 41 || 43 <= code <= 58 || code == 61 || code == 63
    || 65 <= code <= 90 || code == 95 || 97 <= code <= 122
  }

  lemma BoundaryCharExactly(c: char)
    ensures BoundaryChar(c) <==> BoundaryCode(c as int)
  {
  }

  /** A boundary is one to seventy characters of section 5.1.1 of RFC 2046, no blank at its end. */
  lemma BoundaryExactly(b: string)
    ensures ValidBoundary(b) <==>
            1 <= |b| <= 70 && (forall i :: 0 <= i < |b| ==> BoundaryCode(b[i] as int)) && b[|b| - 1] != ' '
  {
    forall i | 0 <= i < |b| ensures BoundaryChar(b[i]) <==> BoundaryCode(b[i] as int) {
      BoundaryCharExactly(b[i]);
    }
    hide BoundaryChar, BoundaryCode;
  }

  // ----- delimiter lines -----

  /** The line a delimiter stands on, up to its end. */
  function DelimiterLine(marker: string, last: bool, pad: string): string {
    marker + (if last then "--" else "") + pad
  }

  /** A delimiter line from the front of s: it takes `length`, line end included. */
  ghost predicate Delimits(s: string, marker: string, length: nat, last: bool) {
    exists pad :: Spaces(pad) && DelimitsWith(s, marker, length, last, pad)
  }

  ghost predicate DelimitsWith(s: string, marker: string, length: nat, last: bool, pad: string) {
    var line := DelimiterLine(marker, last, pad);
    (length == |line| + 2 && Starts(s, line + CRLF)) || (last && length == |s| && s == line)
  }

  lemma AfterMarker(s: string, marker: string, length: nat, last: bool, pad: string)
    requires Spaces(pad) && DelimitsWith(s, marker, length, last, pad)
    ensures Starts(s, marker)
    ensures var after := s[|marker|..];
            && Starts(after, "--") == last
            && var padded := if last then after[2..] else after;
               && (padded == pad + TrimLeft(padded)) && |TrimLeft(padded)| == |s| - |DelimiterLine(marker, last, pad)|
               && (Starts(TrimLeft(padded), CRLF) || (last && TrimLeft(padded) == "" && length == |s|))
               && (Starts(TrimLeft(padded), CRLF) ==> length == |s| - |TrimLeft(padded)| + 2)
  {
    var line := DelimiterLine(marker, last, pad);
    var rest := s[|line|..];
    assert s == line + rest;
    assert rest == "" || (|rest| >= 2 && rest[..2] == CRLF);
    var after := s[|marker|..];
    assert after == (if last then "--" else "") + pad + rest;
    LeftGone(pad, rest);
    hide TrimLeft;
    if last {
      assert after[..2] == "--" && after[2..] == pad + rest;
    } else {
      assert after == pad + rest;
      assert pad != "" ==> after[0] == pad[0];
      assert pad == "" ==> after == rest;
      assert |after| >= 2 ==> after[..2][0] == after[0] != '-';
    }
  }

  lemma MarkedDelimits(s: string, marker: string, length: nat, last: bool)
    requires Marked(s, marker) == Some((length, last))
    ensures Delimits(s, marker, length, last)
  {
    var after := s[|marker|..];
    var padded := if last then after[2..] else after;
    var pad := LeftSplit(padded);
    var rest := TrimLeft(padded);
    hide TrimLeft;
    DelimiterLayout(s, marker, after, padded, pad, rest, last);
    assert DelimitsWith(s, marker, length, last, pad);
  }

  lemma DelimiterLayout(s: string, marker: string, after: string, padded: string, pad: string, rest: string, last: bool)
    requires Starts(s, marker) && after == s[|marker|..] && Starts(after, "--") == last && padded == pad + rest
    requires padded == if last then after[2..] else after
    ensures var line := DelimiterLine(marker, last, pad);
            s == line + rest && (Starts(rest, CRLF) ==> Starts(s, line + CRLF))
  {
    assert s == marker + after;
    assert last ==> after == "--" + padded;
    var line := DelimiterLine(marker, last, pad);
    assert s == line + rest;
    if Starts(rest, CRLF) {
      assert s[..|line| + 2] == line + CRLF;
    }
  }

  lemma MarkedExactly(s: string, marker: string, length: nat, last: bool)
    ensures Marked(s, marker) == Some((length, last)) <==> Delimits(s, marker, length, last)
  {
    if Marked(s, marker) == Some((length, last)) {
      MarkedDelimits(s, marker, length, last);
    }
    if Delimits(s, marker, length, last) {
      var pad :| Spaces(pad) && DelimitsWith(s, marker, length, last, pad);
      AfterMarker(s, marker, length, last, pad);
      hide TrimLeft, DelimitsWith, DelimiterLine;
    }
  }

  /** DELIMITERS EXACTLY (section 5.1.1 of RFC 2046).  There is a delimiter at p if and only if a line begins there and
      holds the marker, two dashes if it is the last, and blanks; the last one may end with the body. */
  lemma DelimiterExactly(body: string, marker: string, p: nat, next: nat, last: bool)
    requires p <= |body|
    ensures DelimiterAt(body, marker, p) == Some(Delimiter(p, next, last)) <==>
            && (p == 0 || (p >= 2 && body[p - 2] == '\r' && body[p - 1] == '\n'))
            && next >= p && Delimits(body[p..], marker, next - p, last)
  {
    hide Delimits, Marked;
    assert StartsLine(body, p) <==> p == 0 || (p >= 2 && body[p - 2] == '\r' && body[p - 1] == '\n') by {
      if p >= 2 {
        assert body[p - 2..p] == [body[p - 2], body[p - 1]];
      }
    }
    if next >= p {
      MarkedExactly(body[p..], marker, next - p, last);
    }
  }

  // ----- the headers of a part -----

  /** The header lines of a part, one behind the other. */
  function Joined(headers: seq<Header>): string {
    if headers == [] then ""
    else if |headers| == 1 then HeaderLine(headers[0])
    else HeaderLine(headers[0]) + CRLF + Joined(headers[1..])
  }

  predicate Proper(h: Header) {
    Token(h.name) && FieldText(h.value)
  }

  predicate AllProper(headers: seq<Header>) {
    forall k :: 0 <= k < |headers| ==> Proper(headers[k])
  }

  predicate Distinct(headers: seq<Header>) {
    forall j, k :: 0 <= j < k < |headers| ==> Folded(headers[j].name) != Folded(headers[k].name)
  }

  function ValueOf(headers: seq<Header>, name: string): Option<string> {
    if headers == [] then None
    else if Named(headers[0].name, name) then Some(headers[0].value)
    else ValueOf(headers[1..], name)
  }

  /** The values by name, unless a line is none or a name comes twice. */
  function HeadersMean(headers: seq<Header>, seen: map<string, string>): Option<map<string, string>>
    decreases |headers|
  {
    if headers == [] then Some(seen)
    else if !Proper(headers[0]) || Folded(headers[0].name) in seen then None
    else HeadersMean(headers[1..], seen[Folded(headers[0].name) := headers[0].value])
  }

  /** What both parsers of lines see in one: a name and a value, or none. */
  ghost predicate Splits(line: string, h: Header) {
    && |h.name| < |line| && Find(line, ":", 0) == Some(|h.name|) && line[..|h.name|] == h.name
    && Trim(line[|h.name| + 1..]) == h.value && Lower(h.name) == Folded(h.name)
    && (ValidName(h.name) && ValidValue(h.value) <==> Proper(h))
  }

  lemma PlacedSplits(h: Header)
    requires Placed(h)
    ensures Splits(HeaderLine(h), h)
  {
    LineSplits(h);
    NameIsToken(h.name);
    ValueIsText(h.value);
    hide Find, Trim, Lower, ValidName, ValidValue, Token, FieldText;
  }

  lemma LastLine(line: string, h: Header, seen: map<string, string>)
    requires line != "" && Find(line, CRLF, 0).None? && Splits(line, h)
    ensures HeadersFrom(line, seen) == if !Proper(h) || Folded(h.name) in seen then None else Some(seen[Folded(h.name) := h.value])
  {
    hide Find, Trim, Lower, ValidName, ValidValue, Folded, Proper;
  }

  lemma NextLine(section: string, line: string, rest: string, h: Header, seen: map<string, string>)
    requires section == line + CRLF + rest && Find(section, CRLF, 0) == Some(|line|) && Splits(line, h)
    ensures HeadersFrom(section, seen) ==
            if !Proper(h) || Folded(h.name) in seen then None else HeadersFrom(rest, seen[Folded(h.name) := h.value])
  {
    assert section[..|line|] == line && section[|line| + 2..] == rest;
    hide Find, Trim, Lower, ValidName, ValidValue, Folded, Proper;
  }

  lemma {:induction false} HeadersRead(headers: seq<Header>, seen: map<string, string>)
    requires AllPlaced(headers)
    ensures HeadersFrom(Joined(headers), seen) == HeadersMean(headers, seen)
    decreases |headers|
  {
    hide HeadersFrom, HeaderLine, Placed, Proper;
    if headers == [] {
      NoHeaders(seen);
    } else {
      var h, rest := headers[0], headers[1..];
      LineChars(h);
      PlacedSplits(h);
      hide Splits, Folded;
      if rest == [] {
        NoLineFound(HeaderLine(h));
        LastLine(HeaderLine(h), h, seen);
      } else {
        LineFound(HeaderLine(h), Joined(rest));
        NextLine(Joined(headers), HeaderLine(h), Joined(rest), h, seen);
      }
      if Proper(h) && Folded(h.name) !in seen {
        HeadersRead(rest, seen[Folded(h.name) := h.value]);
      }
    }
  }

  lemma NoHeaders(seen: map<string, string>)
    ensures HeadersFrom("", seen) == Some(seen)
  {
  }

  ghost predicate Apart(headers: seq<Header>, seen: map<string, string>) {
    forall k :: 0 <= k < |headers| ==> Folded(headers[k].name) !in seen
  }

  function Found(seen: map<string, string>, name: string): Option<string> {
    if name in seen then Some(seen[name]) else None
  }

  /** What the fold comes to, said of the list. */
  lemma {:induction false} MeanExactly(headers: seq<Header>, seen: map<string, string>, name: string)
    ensures HeadersMean(headers, seen).Some? <==> AllProper(headers) && Distinct(headers) && Apart(headers, seen)
    ensures HeadersMean(headers, seen).Some? ==>
              Found(HeadersMean(headers, seen).value, name) ==
              if ValueOf(headers, name).Some? then ValueOf(headers, name) else Found(seen, name)
    decreases |headers|
  {
    if headers != [] {
      var h, rest := headers[0], headers[1..];
      var more := seen[Folded(h.name) := h.value];
      MeanExactly(rest, more, name);
      MeanFirst(headers, seen);
      hide Proper, Folded, AllProper, Distinct, Apart;
      if HeadersMean(headers, seen).Some? && ValueOf(rest, name).Some? {
        NotAgain(rest, more, name);
      }
    }
  }

  lemma MeanFirst(headers: seq<Header>, seen: map<string, string>)
    requires headers != []
    ensures var h, rest := headers[0], headers[1..];
            AllProper(headers) && Distinct(headers) && Apart(headers, seen) <==>
              Proper(h) && Folded(h.name) !in seen && AllProper(rest) && Distinct(rest) && Apart(rest, seen[Folded(h.name) := h.value])
  {
    hide Proper, Folded;
    var h, rest := headers[0], headers[1..];
    assert forall k :: 0 <= k < |rest| ==> rest[k] == headers[k + 1];
    assert forall k :: 1 <= k < |headers| ==> headers[k] == rest[k - 1];
  }

  lemma {:induction false} NotAgain(headers: seq<Header>, seen: map<string, string>, name: string)
    requires Apart(headers, seen) && ValueOf(headers, name).Some?
    ensures name !in seen
  {
    assert Folded(headers[0].name) !in seen;
    if !Named(headers[0].name, name) {
      assert Apart(headers[1..], seen) by {
        assert forall k :: 0 <= k < |headers[1..]| ==> headers[1..][k] == headers[k + 1];
      }
      NotAgain(headers[1..], seen, name);
    }
  }

  /** What a part's content disposition has to say. */
  predicate Disposes(values: map<string, string>, head: Head) {
    && "name" in values && values["name"] == head.name && GoodName(head.name) && "filename*" !in values
    && head.filename == (if "filename" in values then Some(values["filename"]) else None)
  }

  /** HEADS EXACTLY (section 4 of RFC 7578).  However its lines are spelt and ordered, the head of a part is taken if and
      only if each line is a field, no field comes twice, the content is not transfer-encoded, and its disposition is
      form data with a good name; otherwise the body is malformed. */
  lemma HeadExactly(headers: seq<Header>, head: Head)
    requires AllPlaced(headers)
    ensures !ReadHead(Joined(headers)).Oversized?
    ensures ReadHead(Joined(headers)) == Ok(head) <==>
            && AllProper(headers) && Distinct(headers)
            && ValueOf(headers, "content-transfer-encoding").None? && head.contentType == ValueOf(headers, "content-type")
            && ValueOf(headers, "content-disposition").Some?
            && var read := ParseParameters(ValueOf(headers, "content-disposition").value);
               read.Some? && read.value.kind == "form-data" && Disposes(read.value.values, head)
  {
    HeadersRead(headers, map[]);
    MeanExactly(headers, map[], "content-disposition");
    MeanExactly(headers, map[], "content-transfer-encoding");
    MeanExactly(headers, map[], "content-type");
    assert Apart(headers, map[]);
    hide HeadersFrom, HeadersMean, ParseParameters, GoodName, Joined, ValueOf, AllProper, Distinct, AllPlaced;
    var m := HeadersFrom(Joined(headers), map[]);
    if m.Some? {
      HeadOf(Joined(headers), m.value, head);
    }
  }

  lemma HeadOf(section: string, m: map<string, string>, head: Head)
    requires HeadersFrom(section, map[]) == Some(m)
    ensures ReadHead(section) == Ok(head) <==>
            && Found(m, "content-transfer-encoding").None? && head.contentType == Found(m, "content-type")
            && Found(m, "content-disposition").Some?
            && var read := ParseParameters(Found(m, "content-disposition").value);
               read.Some? && read.value.kind == "form-data" && Disposes(read.value.values, head)
  {
    hide HeadersFrom, ParseParameters, GoodName;
  }
}
