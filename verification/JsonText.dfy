/** JSON values, their text, and what the parser makes of a text. */
module JsonText {
  import opened Text

  /** The 64 bits of a finite double. */
  type Float = nat

  /** A JSON value as it lies in memory; an object lists its members in iteration order. */
  datatype Json =
    | Null
    | Bool(flag: bool)
    | Int64(int64: int)
    | UInt64(uint64: int)
    | Double(double: Float)
    | Str(text: string)
    | Arr(items: seq<Json>)
    | Obj(members: seq<Member>)

  datatype Member = Member(key: string, item: Json)

  const INT64_LIMIT := 0x8000_0000_0000_0000
  const UINT64_LIMIT := 0x1_0000_0000_0000_0000

  predicate DistinctKeys(members: seq<Member>) {
    forall j, k :: 0 <= j < k < |members| ==> members[j].key != members[k].key
  }

  /** What the C++ types guarantee: integers in range, keys of an object distinct. */
  predicate WellFormed(v: Json) {
    match v
    case Int64(i) => -INT64_LIMIT <= i < INT64_LIMIT
    case UInt64(u) => 0 <= u < UINT64_LIMIT
    case Arr(items) => forall k :: 0 <= k < |items| ==> WellFormed(items[k])
    case Obj(members) => DistinctKeys(members) && forall k :: 0 <= k < |members| ==> WellFormed(members[k].item)
    case _ => true
  }

  /** The library's double printer and reader. */
  datatype Floats = Floats(format: Float -> string, read: string -> Option<Float>)

  // ----- printing -----

  function EscapeChar(c: char): (e: string)
    ensures e != ""
  {
    if c == '\"' then "\\\""
    else if c == '\\' then "\\\\"
    else if c == 8 as char then "\\b"
    else if c == 12 as char then "\\f"
    else if c == '\n' then "\\n"
    else if c == '\r' then "\\r"
    else if c == '\t' then "\\t"
    else if c < 0x20 as char then "\\u00" + [DIGITS[c as nat / 16]] + [DIGITS[c as nat % 16]]
    else [c]
  }

  function Escape(s: string): string {
    if s == "" then "" else EscapeChar(s[0]) + Escape(s[1..])
  }

  function Quoted(s: string): string {
    "\"" + Escape(s) + "\""
  }

  function Decimal(i: int): string {
    if i < 0 then "-" + Numeral(-i, 10) else Numeral(i, 10)
  }

  predicate HasPoint(s: string) {
    '.' in s || 'e' in s || 'E' in s
  }

  function FloatText(fl: Floats, d: Float): string {
    var t := fl.format(d);
    if HasPoint(t) then t else t + ".0"
  }

  function Dump(fl: Floats, v: Json): string
    decreases v, 0
  {
    match v
    case Null => "null"
    case Bool(b) => if b then "true" else "false"
    case Int64(i) => Decimal(i)
    case UInt64(u) => Decimal(u)
    case Double(d) => FloatText(fl, d)
    case Str(s) => Quoted(s)
    case Arr(items) => "[" + DumpItems(fl, items) + "]"
    case Obj(members) => "{" + DumpMembers(fl, members) + "}"
  }

  function DumpItems(fl: Floats, items: seq<Json>): string
    decreases items, 1
  {
    if items == [] then ""
    else if |items| == 1 then Dump(fl, items[0])
    else Dump(fl, items[0]) + "," + DumpItems(fl, items[1..])
  }

  function DumpMember(fl: Floats, member: Member): string
    decreases member, 1
  {
    Quoted(member.key) + ":" + Dump(fl, member.item)
  }

  function DumpMembers(fl: Floats, members: seq<Member>): string
    decreases members, 2
  {
    if members == [] then ""
    else if |members| == 1 then DumpMember(fl, members[0])
    else DumpMember(fl, members[0]) + "," + DumpMembers(fl, members[1..])
  }

  // ----- parsing, as a function from the remaining text to a value and the text after it -----

  datatype Error =
    | UnexpectedData | UnexpectedEnd | InvalidValue
    | NotQuoted | ControlCharacter | IncompleteEscape | IncompleteUnicode | InvalidUnicode | InvalidEscape | UnterminatedString
    | KeyNotString | MissingColon | UnterminatedObject | MissingObjectComma
    | UnterminatedArray | MissingArrayComma
    | InvalidNumber | InvalidFraction | InvalidExponent | OutOfRange

  datatype Parsed<+T> = Ok(value: T, rest: string) | Bad(error: Error)

  predicate IsSpace(c: char) {
    c == ' ' || c == '\n' || c == '\r' || c == '\t'
  }

  function SkipSpace(s: string): (rest: string)
    ensures |rest| <= |s|
  {
    if s != "" && IsSpace(s[0]) then SkipSpace(s[1..]) else s
  }

  function Utf8(code: nat): string
    requires code < 0x1_0000
  {
    if code <= 0x7F then [code as char]
    else if code <= 0x7FF then [(0xC0 + code / 64) as char, (0x80 + code % 64) as char]
    else [(0xE0 + code / 4096) as char, (0x80 + code / 64 % 64) as char, (0x80 + code % 64) as char]
  }

  function SimpleEscape(c: char): Option<char> {
    if c == '\"' || c == '\\' || c == '/' then Some(c)
    else if c == 'b' then Some(8 as char)
    else if c == 'f' then Some(12 as char)
    else if c == 'n' then Some('\n')
    else if c == 'r' then Some('\r')
    else if c == 't' then Some('\t')
    else None
  }

  function HexValue(s: string): (n: nat)
    requires |s| == 4 && AllDigits(s, 16)
    ensures n < 0x1_0000
  {
    DigitValue(s[0]) * 4096 + DigitValue(s[1]) * 256 + DigitValue(s[2]) * 16 + DigitValue(s[3])
  }

  /** The characters up to the closing quote, appended to `out`. */
  function StringBody(s: string, out: string): (r: Parsed<string>)
    ensures r.Ok? ==> |r.rest| < |s|
    decreases |s|
  {
    if s == "" then Bad(UnterminatedString)
    else if s[0] == '\"' then Ok(out, s[1..])
    else if s[0] != '\\' then
      if s[0] < 0x20 as char then Bad(ControlCharacter) else StringBody(s[1..], out + [s[0]])
    else if |s| == 1 then Bad(IncompleteEscape)
    else if s[1] == 'u' then
      if |s| < 6 then Bad(IncompleteUnicode)
      else if !AllDigits(s[2..6], 16) then Bad(InvalidUnicode)
      else StringBody(s[6..], out + Utf8(HexValue(s[2..6])))
    else
      match SimpleEscape(s[1])
      case None => Bad(InvalidEscape)
      case Some(c) => StringBody(s[2..], out + [c])
  }

  lemma StringBodyEnds(out: string)
    ensures StringBody("", out) == Bad(UnterminatedString)
  {
  }

  /** How one more character of the text moves the string along. */
  lemma StringBodySteps(s: string, out: string)
    requires s != ""
    ensures s[0] == '\"' ==> StringBody(s, out) == Ok(out, s[1..])
    ensures s[0] != '\"' && s[0] != '\\' ==>
              StringBody(s, out) == if s[0] < 0x20 as char then Bad(ControlCharacter) else StringBody(s[1..], out + [s[0]])
    ensures s[0] == '\\' && |s| == 1 ==> StringBody(s, out) == Bad(IncompleteEscape)
  {
  }

  lemma StringBodyUnicode(s: string, out: string)
    requires |s| >= 2 && s[0] == '\\' && s[1] == 'u'
    ensures |s| < 6 ==> StringBody(s, out) == Bad(IncompleteUnicode)
    ensures |s| >= 6 && !AllDigits(s[2..6], 16) ==> StringBody(s, out) == Bad(InvalidUnicode)
    ensures |s| >= 6 && AllDigits(s[2..6], 16) ==>
              StringBody(s, out) == StringBody(s[6..], out + Utf8(HexValue(s[2..6])))
  {
    hide AllDigits, Utf8, HexValue;
  }

  lemma StringBodyEscape(s: string, out: string)
    requires |s| >= 2 && s[0] == '\\' && s[1] != 'u'
    ensures SimpleEscape(s[1]).None? ==> StringBody(s, out) == Bad(InvalidEscape)
    ensures SimpleEscape(s[1]).Some? ==> StringBody(s, out) == StringBody(s[2..], out + [SimpleEscape(s[1]).value])
  {
    hide SimpleEscape;
  }

  function ParseString(s: string): (r: Parsed<string>)
    requires s != ""
    ensures r.Ok? ==> |r.rest| < |s|
  {
    if s[0] != '\"' then Bad(NotQuoted) else StringBody(s[1..], "")
  }

  function SkipDigits(s: string): (rest: string)
    ensures |rest| <= |s|
  {
    if s != "" && '0' <= s[0] <= '9' then SkipDigits(s[1..]) else s
  }

  /** The digits before the point, after an optional minus sign. */
  function ScanInteger(s: string): (r: Parsed<()>)
    ensures r.Ok? ==> |r.rest| < |s|
  {
    var t := if s != "" && s[0] == '-' then s[1..] else s;
    if t == "" then Bad(InvalidNumber)
    else if t[0] == '0' then Ok((), t[1..])
    else if !('1' <= t[0] <= '9') then Bad(InvalidNumber)
    else Ok((), SkipDigits(t))
  }

  /** The value is whether there is a fraction. */
  function ScanFraction(s: string): (r: Parsed<bool>)
    ensures r.Ok? ==> |r.rest| <= |s|
  {
    if s == "" || s[0] != '.' then Ok(false, s)
    else if SkipDigits(s[1..]) == s[1..] then Bad(InvalidFraction)
    else Ok(true, SkipDigits(s[1..]))
  }

  function ScanExponent(s: string): (r: Parsed<bool>)
    ensures r.Ok? ==> |r.rest| <= |s|
  {
    if s == "" || (s[0] != 'e' && s[0] != 'E') then Ok(false, s)
    else
      var t := if |s| > 1 && (s[1] == '+' || s[1] == '-') then s[2..] else s[1..];
      if SkipDigits(t) == t then Bad(InvalidExponent) else Ok(true, SkipDigits(t))
  }

  /** Scans one number; the value is whether it is a floating one. */
  function ScanNumber(s: string): (r: Parsed<bool>)
    ensures r.Ok? ==> |r.rest| < |s|
  {
    match ScanInteger(s)
    case Bad(e) => Bad(e)
    case Ok(_, s1) =>
      match ScanFraction(s1)
      case Bad(e) => Bad(e)
      case Ok(fraction, s2) =>
        match ScanExponent(s2)
        case Bad(e) => Bad(e)
        case Ok(exponent, s3) => Ok(fraction || exponent, s3)
  }

  function IntegerOf(token: string): int {
    if token != "" && token[0] == '-' then 0 - Value(token[1..], 10) else Value(token, 10)
  }

  /** An integer token becomes Int64 if it fits, else UInt64 if it fits; anything else is a double. */
  function NumberOf(fl: Floats, token: string, floating: bool): Option<Json> {
    if !floating && -INT64_LIMIT <= IntegerOf(token) < INT64_LIMIT then Some(Int64(IntegerOf(token)))
    else if !floating && token != "" && token[0] != '-' && IntegerOf(token) < UINT64_LIMIT then Some(UInt64(IntegerOf(token)))
    else match fl.read(token)
      case None => None
      case Some(d) => Some(Double(d))
  }

  function ParseNumber(fl: Floats, s: string): (r: Parsed<Json>)
    ensures r.Ok? ==> |r.rest| < |s|
  {
    match ScanNumber(s)
    case Bad(e) => Bad(e)
    case Ok(floating, rest) =>
      match NumberOf(fl, s[..|s| - |rest|], floating)
      case None => Bad(OutOfRange)
      case Some(v) => Ok(v, rest)
  }

  /** insert_or_assign. */
  function Assign(members: seq<Member>, key: string, v: Json): seq<Member> {
    if members == [] then [Member(key, v)]
    else if members[0].key == key then [Member(key, v)] + members[1..]
    else [members[0]] + Assign(members[1..], key, v)
  }

  function ParseValue(fl: Floats, s: string): (r: Parsed<Json>)
    ensures r.Ok? ==> |r.rest| < |s|
    decreases |s|, 2
  {
    var t := SkipSpace(s);
    if t == "" then Bad(UnexpectedEnd)
    else if t[0] == '\"' then
      (match ParseString(t)
       case Bad(e) => Bad(e)
       case Ok(text, rest) => Ok(Str(text), rest))
    else if t[0] == '{' then ParseObject(fl, t)
    else if t[0] == '[' then ParseArray(fl, t)
    else if Starts(t, "true") then Ok(Bool(true), t[4..])
    else if Starts(t, "false") then Ok(Bool(false), t[5..])
    else if Starts(t, "null") then Ok(Null, t[4..])
    else if t[0] == '-' || '0' <= t[0] <= '9' then ParseNumber(fl, t)
    else Bad(InvalidValue)
  }

  function ParseArray(fl: Floats, s: string): (r: Parsed<Json>)
    requires s != ""
    ensures r.Ok? ==> |r.rest| < |s|
    decreases |s|, 1
  {
    var t := SkipSpace(s[1..]);
    if t != "" && t[0] == ']' then Ok(Arr([]), t[1..]) else ParseItems(fl, t, [])
  }

  function ParseItems(fl: Floats, s: string, items: seq<Json>): (r: Parsed<Json>)
    ensures r.Ok? ==> |r.rest| < |s|
    decreases |s|, 3
  {
    match ParseValue(fl, s)
    case Bad(e) => Bad(e)
    case Ok(v, after) =>
      var t := SkipSpace(after);
      if t == "" then Bad(UnterminatedArray)
      else if t[0] == ']' then Ok(Arr(items + [v]), t[1..])
      else if t[0] != ',' then Bad(MissingArrayComma)
      else ParseItems(fl, t[1..], items + [v])
  }

  function ParseObject(fl: Floats, s: string): (r: Parsed<Json>)
    requires s != ""
    ensures r.Ok? ==> |r.rest| < |s|
    decreases |s|, 1
  {
    var t := SkipSpace(s[1..]);
    if t != "" && t[0] == '}' then Ok(Obj([]), t[1..]) else ParseMembers(fl, t, [])
  }

  /** One key, the colon and its value. */
  function ParseMember(fl: Floats, s: string): (r: Parsed<Member>)
    ensures r.Ok? ==> |r.rest| < |s|
    decreases |s|, 3
  {
    var t := SkipSpace(s);
    if t == "" || t[0] != '\"' then Bad(KeyNotString)
    else match ParseString(t)
      case Bad(e) => Bad(e)
      case Ok(key, afterKey) =>
        var u := SkipSpace(afterKey);
        if u == "" || u[0] != ':' then Bad(MissingColon)
        else match ParseValue(fl, u[1..])
          case Bad(e) => Bad(e)
          case Ok(v, after) => Ok(Member(key, v), after)
  }

  function ParseMembers(fl: Floats, s: string, members: seq<Member>): (r: Parsed<Json>)
    ensures r.Ok? ==> |r.rest| < |s|
    decreases |s|, 4
  {
    match ParseMember(fl, s)
    case Bad(e) => Bad(e)
    case Ok(member, after) =>
      var t := SkipSpace(after);
      var more := Assign(members, member.key, member.item);
      if t == "" then Bad(UnterminatedObject)
      else if t[0] == '}' then Ok(Obj(more), t[1..])
      else if t[0] != ',' then Bad(MissingObjectComma)
      else ParseMembers(fl, t[1..], more)
  }

  /** One round of the array loop. */
  lemma ParseItemsStep(fl: Floats, s: string, items: seq<Json>)
    ensures var v := ParseValue(fl, s);
            ParseItems(fl, s, items) ==
              if v.Bad? then Bad(v.error)
              else
                var t, more := SkipSpace(v.rest), items + [v.value];
                if t == "" then Bad(UnterminatedArray)
                else if t[0] == ']' then Ok(Arr(more), t[1..])
                else if t[0] != ',' then Bad(MissingArrayComma)
                else ParseItems(fl, t[1..], more)
  {
    hide SkipSpace, ParseValue;
  }

  /** One round of the object loop. */
  lemma ParseMembersStep(fl: Floats, s: string, members: seq<Member>)
    ensures var m := ParseMember(fl, s);
            ParseMembers(fl, s, members) ==
              if m.Bad? then Bad(m.error)
              else
                var t, more := SkipSpace(m.rest), Assign(members, m.value.key, m.value.item);
                if t == "" then Bad(UnterminatedObject)
                else if t[0] == '}' then Ok(Obj(more), t[1..])
                else if t[0] != ',' then Bad(MissingObjectComma)
                else ParseMembers(fl, t[1..], more)
  {
    hide ParseMember, SkipSpace, Assign, ParseValue;
  }

  /** The whole text must be one value. */
  function Parse(fl: Floats, s: string): Parsed<Json> {
    match ParseValue(fl, SkipSpace(s))
    case Bad(e) => Bad(e)
    case Ok(v, rest) => if SkipSpace(rest) == "" then Ok(v, "") else Bad(UnexpectedData)
  }
}
