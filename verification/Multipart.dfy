/** multipart/form-data: header parameters, delimiter lines, part headers and the form they fill. */
module Multipart {
  import opened Text
  import opened Framing

  datatype Result<+T> = Ok(value: T) | Malformed | Oversized

  // ----- parameters -----

  datatype Parameters = Parameters(kind: string, values: map<string, string>)

  predicate Control(c: char) {
    c < 0x20 as char || c == 0x7f as char
  }

  /** The rest of a quoted string: its value and what follows the closing quote. */
  function Quoted(s: string, value: string): (r: Option<(string, string)>)
    ensures r.Some? ==> |r.value.1| < |s|
    decreases |s|
  {
    if s == "" then None
    else if s[0] == '"' then Some((value, s[1..]))
    else if s[0] == '\\' then
      if |s| == 1 || Control(s[1]) then None else Quoted(s[2..], value + [s[1]])
    else if Control(s[0]) then None
    else Quoted(s[1..], value + [s[0]])
  }

  lemma {:induction false} TrimLeftShorter(s: string)
    ensures |TrimLeft(s)| <= |s|
  {
    if s != "" && IsBlank(s[0]) {
      TrimLeftShorter(s[1..]);
    }
  }

  lemma {:induction false} TrimRightShorter(s: string)
    ensures |TrimRight(s)| <= |s|
  {
    if s != "" && IsBlank(s[|s| - 1]) {
      TrimRightShorter(s[..|s| - 1]);
    }
  }

  /** Trim, with its length noted. */
  function Trimmed(s: string): (r: string)
    ensures r == Trim(s) && |r| <= |s|
  {
    TrimLeftShorter(s);
    TrimRightShorter(TrimLeft(s));
    Trim(s)
  }

  /** One value, quoted or a token: the value and what follows it. */
  function ParameterValue(s: string): (r: Option<(string, string)>)
    ensures r.Some? ==> |r.value.1| <= |s|
  {
    if s != "" && s[0] == '"' then
      match Quoted(s[1..], "")
      case None => None
      case Some((value, after)) =>
        var rest := Trimmed(after);
        if rest != "" && rest[0] != ';' then None else Some((value, rest))
    else
      var end := Find(s, ";", 0);
      var token := Trim(if end.None? then s else s[..end.value]);
      if !ValidName(token) then None
      else Some((token, if end.None? then "" else s[end.value..]))
  }

  /** The parameters after the first semicolon. */
  function ParametersFrom(input: string, values: map<string, string>): Option<map<string, string>>
    decreases |input|
  {
    var text := Trimmed(input);
    if text == "" then Some(values)
    else
      match Find(text, "=", 0)
      case None => None
      case Some(equals) =>
        var name := Lower(Trim(text[..equals]));
        if !ValidName(name) then None
        else
          match ParameterValue(Trimmed(text[equals + 1..]))
          case None => None
          case Some((value, rest)) =>
            if name in values then None
            else if rest == "" then Some(values[name := value])
            else if Trim(rest[1..]) == "" then None
            else ParametersFrom(rest[1..], values[name := value])
  }

  function ParseParameters(input: string): Option<Parameters> {
    match Find(input, ";", 0)
    case None => Some(Parameters(Lower(Trim(input)), map[]))
    case Some(semicolon) =>
      match ParametersFrom(input[semicolon + 1..], map[])
      case None => None
      case Some(values) => Some(Parameters(Lower(Trim(input[..semicolon])), values))
  }

  // ----- delimiter lines -----

  datatype Delimiter = Delimiter(position: nat, next: nat, last: bool)

  predicate StartsLine(body: string, p: nat) {
    p == 0 || (p >= 2 && At(body, CRLF, p - 2))
  }

  /** A delimiter at the front of s: how much it takes, line end included, and whether it closes. */
  function Marked(s: string, marker: string): (r: Option<(nat, bool)>)
    ensures r.Some? ==> |marker| <= r.value.0 <= |s|
  {
    if !Starts(s, marker) then None
    else
      var after := s[|marker|..];
      var last := Starts(after, "--");
      var rest := TrimLeft(if last then after[2..] else after);
      TrimLeftShorter(if last then after[2..] else after);
      if Starts(rest, CRLF) then Some((|s| - |rest| + 2, last))
      else if last && rest == "" then Some((|s|, last))
      else None
  }

  /** The delimiter line at p, if there is one. */
  function DelimiterAt(body: string, marker: string, p: nat): (r: Option<Delimiter>)
    requires p <= |body|
    ensures r.Some? ==> r.value.position == p && p + |marker| <= r.value.next <= |body|
  {
    if !StartsLine(body, p) then None
    else match Marked(body[p..], marker)
      case None => None
      case Some((length, last)) => Some(Delimiter(p, p + length, last))
  }

  /** The first delimiter line at or after `start`. */
  function FirstDelimiter(body: string, marker: string, start: nat): (r: Option<Delimiter>)
    ensures r.Some? ==> start <= r.value.position && r.value.position + |marker| <= r.value.next <= |body|
    decreases |body| - start
  {
    if start > |body| then None
    else if DelimiterAt(body, marker, start).Some? then DelimiterAt(body, marker, start)
    else FirstDelimiter(body, marker, start + 1)
  }

  /** A marker never spans a line end. */
  predicate OneLine(marker: string) {
    marker != "" && '\r' !in marker && '\n' !in marker
  }

  /** Where the marker does not occur there is no delimiter. */
  lemma MarkerNeeded(body: string, marker: string, p: nat)
    requires p <= |body| && DelimiterAt(body, marker, p).Some?
    ensures At(body, marker, p)
  {
    assert body[p..][..|marker|] == body[p..p + |marker|];
  }

  /** Nothing is missed by going on after a whole marker: a line start inside it would be a line
      end in the marker. */
  lemma NoneInside(body: string, marker: string, found: nat, p: nat)
    requires OneLine(marker) && At(body, marker, found) && found < p < found + |marker|
    ensures DelimiterAt(body, marker, p).None?
  {
    assert body[p - 1] == body[found..found + |marker|][p - 1 - found];
    if StartsLine(body, p) {
      AfterLineEnd(body, p);
    }
  }

  lemma AfterLineEnd(body: string, p: nat)
    requires 0 < p <= |body| && StartsLine(body, p)
    ensures p >= 2 && body[p - 2] == '\r' && body[p - 1] == '\n'
  {
    assert body[p - 2..p][0] == body[p - 2] && body[p - 2..p][1] == body[p - 1];
  }

  lemma {:induction false} SkipTo(body: string, marker: string, start: nat, next: nat)
    requires start <= next
    requires forall p :: start <= p < next && p <= |body| ==> DelimiterAt(body, marker, p).None?
    ensures FirstDelimiter(body, marker, start) == FirstDelimiter(body, marker, next)
    decreases next - start
  {
    if start < next && start <= |body| {
      SkipTo(body, marker, start + 1, next);
    }
  }

  lemma FirstHere(body: string, marker: string, p: nat)
    requires p <= |body| && DelimiterAt(body, marker, p).Some?
    ensures FirstDelimiter(body, marker, p) == DelimiterAt(body, marker, p)
  {
  }

  /** One round of the search loop: the delimiter at the next occurrence of the marker, or where the search
      goes on, behind the whole of that occurrence. */
  function Round(body: string, marker: string, start: nat): (Option<Delimiter>, Option<nat>) {
    match Find(body, marker, start)
    case None => (None, None)
    case Some(found) =>
      var here := DelimiterAt(body, marker, found);
      (here, if here.Some? then None else Some(found + |marker|))
  }

  lemma RoundMeans(body: string, marker: string, start: nat, r: Option<Delimiter>, next: Option<nat>)
    requires OneLine(marker) && (r, next) == Round(body, marker, start)
    ensures next.None? ==> FirstDelimiter(body, marker, start) == r
    ensures next.Some? ==> start < next.value <= |body|
    ensures next.Some? ==> FirstDelimiter(body, marker, next.value) == FirstDelimiter(body, marker, start)
  {
    assert marker != "";
    Searched(body, marker, start);
    hide DelimiterAt, FirstDelimiter, At, Find, OneLine;
    var occurrence := Find(body, marker, start);
    if next.Some? {
      JumpOver(body, marker, occurrence.value, next.value);
    } else if occurrence.Some? {
      FirstHere(body, marker, occurrence.value);
    }
  }

  /** The search loop: it jumps from one occurrence of the marker past the whole of it. */
  method FindDelimiter(body: string, marker: string, from: nat) returns (r: Option<Delimiter>)
    requires OneLine(marker)
    ensures r == FirstDelimiter(body, marker, from)
  {
    hide FirstDelimiter, OneLine;
    var start := from;
    var round := Round(body, marker, start);
    var found, next := round.0, round.1;
    RoundMeans(body, marker, start, found, next);
    hide Round;
    while next.Some?
      invariant next.None? ==> found == FirstDelimiter(body, marker, from)
      invariant next.Some? ==> start < next.value <= |body|
                               && FirstDelimiter(body, marker, next.value) == FirstDelimiter(body, marker, from)
      decreases |body| - start, next.Some?
    {
      start := next.value;
      round := Round(body, marker, start);
      found, next := round.0, round.1;
      RoundMeans(body, marker, start, found, next);
    }
    return found;
  }

  /** The next delimiter is at the next occurrence of the marker, or after it. */
  lemma Searched(body: string, marker: string, start: nat)
    ensures var r := Find(body, marker, start);
            if r.None? then FirstDelimiter(body, marker, start).None?
            else At(body, marker, r.value)
                 && FirstDelimiter(body, marker, start) == FirstDelimiter(body, marker, r.value)
  {
    hide FirstDelimiter, Find, At;
    FindFirst(body, marker, start);
    var r := Find(body, marker, start);
    if r.None? {
      NoMarker(body, marker, start);
    } else {
      JumpTo(body, marker, start, r.value);
    }
  }

  lemma NoMarker(body: string, marker: string, start: nat)
    requires forall p :: start <= p ==> !At(body, marker, p)
    ensures FirstDelimiter(body, marker, start).None?
  {
    forall p | start <= p < |body| + 1 ensures DelimiterAt(body, marker, p).None? {
      if DelimiterAt(body, marker, p).Some? {
        MarkerNeeded(body, marker, p);
      }
    }
    SkipTo(body, marker, start, if start <= |body| then |body| + 1 else start);
  }

  lemma JumpTo(body: string, marker: string, start: nat, found: nat)
    requires start <= found && forall p :: start <= p < found ==> !At(body, marker, p)
    ensures FirstDelimiter(body, marker, start) == FirstDelimiter(body, marker, found)
  {
    forall p | start <= p < found && p <= |body| ensures DelimiterAt(body, marker, p).None? {
      if DelimiterAt(body, marker, p).Some? {
        MarkerNeeded(body, marker, p);
      }
    }
    SkipTo(body, marker, start, found);
  }

  lemma JumpOver(body: string, marker: string, found: nat, next: nat)
    requires OneLine(marker) && At(body, marker, found) && DelimiterAt(body, marker, found).None?
    requires next == found + |marker|
    ensures FirstDelimiter(body, marker, found) == FirstDelimiter(body, marker, next)
  {
    forall p | found <= p < next && p <= |body| ensures DelimiterAt(body, marker, p).None? {
      if p > found {
        NoneInside(body, marker, found, p);
      }
    }
    SkipTo(body, marker, found, next);
  }

  // ----- part headers -----

  /** The header lines of a part, none of them twice; names in lower case. */
  function HeadersFrom(section: string, headers: map<string, string>): Option<map<string, string>>
    decreases |section|
  {
    if section == "" then Some(headers)
    else
      var end := Find(section, CRLF, 0);
      var line := if end.None? then section else section[..end.value];
      match Find(line, ":", 0)
      case None => None
      case Some(colon) =>
        var name, value := line[..colon], Trim(line[colon + 1..]);
        if !ValidName(name) || !ValidValue(value) || Lower(name) in headers then None
        else
          var more := headers[Lower(name) := value];
          if end.None? then Some(more) else HeadersFrom(section[end.value + 2..], more)
  }

  /** UTF-8 text with the usual whitespace controls. */
  predicate IsText(s: string)
    decreases |s|
  {
    s == "" ||
    var c := s[0] as int;
    if c < 128 then (c >= 32 || c in {9, 10, 13}) && c != 127 && IsText(s[1..])
    else
      var more := if 0xc2 <= c <= 0xdf then 1 else if 0xe0 <= c <= 0xef then 2 else if 0xf0 <= c <= 0xf4 then 3 else 0;
      && 0 < more < |s|
      && !(c == 0xe0 && s[1] as int < 0xa0) && !(c == 0xed && s[1] as int >= 0xa0)
      && !(c == 0xf0 && s[1] as int < 0x90) && !(c == 0xf4 && s[1] as int >= 0x90)
      && (forall k :: 1 <= k <= more ==> 0x80 <= s[k] as int < 0xc0)
      && IsText(s[1 + more..])
  }

  predicate SafeName(name: string) {
    0 < |name| <= 255 && IsText(name) && forall i :: 0 <= i < |name| ==> !Control(name[i])
  }

  predicate Listed(name: string) {
    |name| >= 2 && name[|name| - 2..] == "[]"
  }

  function Key(name: string): string {
    if Listed(name) then name[..|name| - 2] else name
  }

  predicate GoodName(name: string) {
    SafeName(name) && Key(name) != "" && forall i :: 0 <= i < |Key(name)| ==> Key(name)[i] !in ".[]*"
  }

  datatype Head = Head(name: string, filename: Option<string>, contentType: Option<string>)

  function Lookup(values: map<string, string>, key: string): Option<string> {
    if key in values then Some(values[key]) else None
  }

  function ReadHead(section: string): Result<Head> {
    match HeadersFrom(section, map[])
    case None => Malformed
    case Some(headers) =>
      if "content-disposition" !in headers || "content-transfer-encoding" in headers then Malformed
      else
        match ParseParameters(headers["content-disposition"])
        case None => Malformed
        case Some(attributes) =>
          var values := attributes.values;
          if attributes.kind != "form-data" || "name" !in values || !GoodName(values["name"]) || "filename*" in values
          then Malformed
          else Ok(Head(values["name"], Lookup(values, "filename"), Lookup(headers, "content-type")))
  }

  // ----- the form -----

  datatype Upload = Upload(name: string, filename: string, media: string, bytes: string)

  datatype Form = Form(fields: map<string, string>, files: seq<Upload>)

  datatype Allowance = Allowance(body: nat, parts: nat, header: nat, field: nat, file: nat)

  function BaseName(filename: string): string {
    if filename == "" then ""
    else if filename[|filename| - 1] in "/\\" then ""
    else BaseName(filename[..|filename| - 1]) + [filename[|filename| - 1]]
  }

  /** The declared media type, without its parameters. */
  function MediaType(contentType: Option<string>): Option<string> {
    if contentType.None? then Some("application/octet-stream")
    else match ParseParameters(contentType.value)
      case None => None
      case Some(parameters) =>
        match Find(parameters.kind, "/", 0)
        case None => None
        case Some(slash) =>
          if ValidName(parameters.kind[..slash]) && ValidName(parameters.kind[slash + 1..]) then Some(parameters.kind)
          else None
  }

  function StoreFile(form: Form, head: Head, bytes: string, a: Allowance): Result<Form>
    requires head.filename.Some?
  {
    if |bytes| > a.file then Oversized
    else if Key(head.name) in form.fields then Malformed
    else if head.filename.value == "" then (if bytes == "" then Ok(form) else Malformed)
    else
      var base, media := BaseName(head.filename.value), MediaType(head.contentType);
      if !SafeName(head.filename.value) || base in {"", ".", ".."} || media.None? then Malformed
      else Ok(form.(files := form.files + [Upload(head.name, base, media.value, bytes)]))
  }

  function StoreField(form: Form, name: string, bytes: string, a: Allowance): Result<Form> {
    if |bytes| > a.field then Oversized
    else if Listed(name) || (exists k :: 0 <= k < |form.files| && Key(form.files[k].name) == Key(name)) then Malformed
    else Ok(form.(fields := form.fields[name := bytes]))
  }

  function Store(form: Form, head: Head, bytes: string, a: Allowance): Result<Form> {
    if head.filename.Some? then StoreFile(form, head, bytes, a) else StoreField(form, head.name, bytes, a)
  }

  /** One part: its head, its bytes and the delimiter that ends it. */
  function ReadPart(body: string, marker: string, begin: nat, a: Allowance): (r: Result<(Head, string, Delimiter)>)
    requires begin <= |body|
    ensures r.Ok? ==> begin < r.value.2.position && r.value.2.position + |marker| <= r.value.2.next <= |body|
  {
    match Find(body, BLANK, begin)
    case None => Malformed
    case Some(headerEnd) =>
      if headerEnd - begin > a.header then Oversized
      else
        match ReadHead(body[begin..headerEnd])
        case Malformed => Malformed
        case Oversized => Oversized
        case Ok(head) =>
          var start := headerEnd + 4;
          var next := FirstDelimiter(body, marker, start);
          if next.None? || next.value.position < start + 2 then Malformed
          else Ok((head, body[start..next.value.position - 2], next.value))
  }

  function PartsFrom(body: string, marker: string, current: Delimiter, form: Form, count: nat, a: Allowance): Result<Form>
    requires current.next <= |body|
    decreases |body| - current.next
  {
    if current.last then Ok(form)
    else if count + 1 > a.parts then Oversized
    else
      match ReadPart(body, marker, current.next, a)
      case Malformed => Malformed
      case Oversized => Oversized
      case Ok((head, bytes, next)) =>
        match Store(form, head, bytes, a)
        case Malformed => Malformed
        case Oversized => Oversized
        case Ok(more) => PartsFrom(body, marker, next, more, count + 1, a)
  }

  predicate BoundaryChar(c: char) {
    'a' <= c <= 'z' || 'A' <= c <= 'Z' || '0' <= c <= '9' || c in "'()+_,-./:=? "
  }

  predicate ValidBoundary(b: string) {
    0 < |b| <= 70 && b[|b| - 1] != ' ' && forall i :: 0 <= i < |b| ==> BoundaryChar(b[i])
  }

  const EMPTY := Form(map[], [])

  function ParseMultipart(contentType: string, body: string, a: Allowance): Result<Form> {
    if |body| > a.body then Oversized
    else
      match ParseParameters(contentType)
      case None => Malformed
      case Some(kind) =>
        if kind.kind != "multipart/form-data" || "boundary" !in kind.values || !ValidBoundary(kind.values["boundary"])
        then Malformed
        else
          var marker := "--" + kind.values["boundary"];
          match FirstDelimiter(body, marker, 0)
          case None => Malformed
          case Some(current) => PartsFrom(body, marker, current, EMPTY, 0, a)
  }

  // ----- no key is both a field and a file -----

  ghost predicate Disjoint(form: Form) {
    forall k :: 0 <= k < |form.files| ==> Key(form.files[k].name) !in form.fields
  }

  lemma StoreDisjoint(form: Form, head: Head, bytes: string, a: Allowance)
    requires Disjoint(form) && Store(form, head, bytes, a).Ok?
    ensures Disjoint(Store(form, head, bytes, a).value)
  {
    hide MediaType, BaseName, SafeName;
  }

  lemma {:induction false} PartsDisjoint(body: string, marker: string, current: Delimiter, form: Form, count: nat, a: Allowance)
    requires current.next <= |body| && Disjoint(form)
    requires PartsFrom(body, marker, current, form, count, a).Ok?
    ensures Disjoint(PartsFrom(body, marker, current, form, count, a).value)
    decreases |body| - current.next
  {
    hide ReadPart, Store, Disjoint;
    if !current.last {
      var (head, bytes, next) := ReadPart(body, marker, current.next, a).value;
      StoreDisjoint(form, head, bytes, a);
      PartsDisjoint(body, marker, next, Store(form, head, bytes, a).value, count + 1, a);
    }
  }

  /** Whatever the body, no key of an accepted form is both a field and a file. */
  lemma FormsDisjoint(contentType: string, body: string, a: Allowance)
    requires ParseMultipart(contentType, body, a).Ok?
    ensures Disjoint(ParseMultipart(contentType, body, a).value)
  {
    var marker := "--" + ParseParameters(contentType).value.values["boundary"];
    var current := FirstDelimiter(body, marker, 0).value;
    hide ParseParameters, FirstDelimiter;
    PartsDisjoint(body, marker, current, EMPTY, 0, a);
  }

  // ----- the loops -----

  method ReadQuoted(input: string) returns (r: Option<(string, string)>)
    ensures r == Quoted(input, "")
  {
    var rest, value := input, "";
    while rest != ""
      invariant Quoted(rest, value) == Quoted(input, "")
      decreases |rest|
    {
      var c := rest[0];
      rest := rest[1..];
      if c == '"' { return Some((value, rest)); }
      if c == '\\' {
        if rest == "" { return None; }
        c, rest := rest[0], rest[1..];
      }
      if Control(c) { return None; }
      value := value + [c];
    }
    return None;
  }

  method ReadValue(input: string) returns (r: Option<(string, string)>)
    ensures r == ParameterValue(input)
  {
    hide Quoted, Find, ValidName;
    if input != "" && input[0] == '"' {
      var quoted := ReadQuoted(input[1..]);
      if quoted.None? { return None; }
      var rest := Trimmed(quoted.value.1);
      if rest != "" && rest[0] != ';' { return None; }
      return Some((quoted.value.0, rest));
    }
    var end := Find(input, ";", 0);
    var token := Trim(if end.None? then input else input[..end.value]);
    if !ValidName(token) { return None; }
    return Some((token, if end.None? then "" else input[end.value..]));
  }

  method ReadParameters(input: string) returns (r: Option<Parameters>)
    ensures r == ParseParameters(input)
  {
    hide Find, ValidName, ParameterValue, Lower, Trim;
    var semicolon := Find(input, ";", 0);
    if semicolon.None? { return Some(Parameters(Lower(Trim(input)), map[])); }
    var kind := Lower(Trim(input[..semicolon.value]));
    var rest, values := input[semicolon.value + 1..], map[];
    while Trim(rest) != ""
      invariant ParametersFrom(rest, values) == ParametersFrom(input[semicolon.value + 1..], map[])
      decreases |rest|
    {
      var text := Trimmed(rest);
      var equals := Find(text, "=", 0);
      if equals.None? { return None; }
      var name := Lower(Trim(text[..equals.value]));
      if !ValidName(name) { return None; }
      var value := ReadValue(Trimmed(text[equals.value + 1..]));
      if value.None? || name in values { return None; }
      values, rest := values[name := value.value.0], value.value.1;
      if rest == "" { return Some(Parameters(kind, values)); }
      rest := rest[1..];
      if Trim(rest) == "" { return None; }
    }
    return Some(Parameters(kind, values));
  }

  method ReadHeaders(section: string) returns (r: Option<map<string, string>>)
    ensures r == HeadersFrom(section, map[])
  {
    hide Find, ValidName, ValidValue, Lower, Trim;
    var rest, headers := section, map[];
    while rest != ""
      invariant HeadersFrom(rest, headers) == HeadersFrom(section, map[])
      decreases |rest|
    {
      var end := Find(rest, CRLF, 0);
      var line := if end.None? then rest else rest[..end.value];
      var colon := Find(line, ":", 0);
      if colon.None? { return None; }
      var name, value := line[..colon.value], Trim(line[colon.value + 1..]);
      if !ValidName(name) || !ValidValue(value) || Lower(name) in headers { return None; }
      headers := headers[Lower(name) := value];
      if end.None? { break; }
      rest := rest[end.value + 2..];
    }
    return Some(headers);
  }

  method ReadForm(contentType: string, body: string, a: Allowance) returns (r: Result<Form>)
    ensures r == ParseMultipart(contentType, body, a)
  {
    if |body| > a.body { return Oversized; }
    var kind := ReadParameters(contentType);
    if kind.None? || kind.value.kind != "multipart/form-data" || "boundary" !in kind.value.values
       || !ValidBoundary(kind.value.values["boundary"]) {
      return Malformed;
    }
    var marker := "--" + kind.value.values["boundary"];
    MarkerIsOneLine(kind.value.values["boundary"]);
    hide ParseParameters, FirstDelimiter, ReadPart, Store, ValidBoundary, OneLine;
    var first := FindDelimiter(body, marker, 0);
    if first.None? { return Malformed; }
    var current, form, parts := first.value, EMPTY, 0;
    while !current.last
      invariant current.next <= |body| && parts >= 0
      invariant PartsFrom(body, marker, current, form, parts, a) == PartsFrom(body, marker, first.value, EMPTY, 0, a)
      decreases |body| - current.next
    {
      if parts + 1 > a.parts { return Oversized; }
      var part := ReadPart(body, marker, current.next, a);
      if part.Oversized? { return Oversized; }
      if part.Malformed? { return Malformed; }
      var (head, bytes, next) := part.value;
      var stored := Store(form, head, bytes, a);
      if stored.Oversized? { return Oversized; }
      if stored.Malformed? { return Malformed; }
      form, current, parts := stored.value, next, parts + 1;
    }
    return Ok(form);
  }

  lemma MarkerIsOneLine(boundary: string)
    requires ValidBoundary(boundary)
    ensures OneLine("--" + boundary)
  {
    forall i | 0 <= i < |boundary| ensures boundary[i] != '\r' && boundary[i] != '\n' {
      assert BoundaryChar(boundary[i]);
    }
  }
}
