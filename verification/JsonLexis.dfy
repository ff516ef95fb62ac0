/** The strings and numbers of JSON (sections 6 and 7 of RFC 8259) with every freedom a writer has in spelling
    them: the parser takes exactly these and reads from each what it says. */
module JsonLexis {
  import opened Text
  import opened JsonText
  import opened JsonRoundTrip

  // ----- characters of a string -----

  /** A character as itself, after a backslash, or as four hexadecimal digits. */
  datatype Piece = Plain(c: char) | Short(c: char) | Code(digits: string)

  predicate GoodPiece(p: Piece) {
    match p
    case Plain(c) => c != '\"' && c != '\\' && c as int >= 32
    case Short(c) => c in "\"\\/bfnrt"
    case Code(h) => |h| == 4 && HexDigits(h)
  }

  predicate HexDigits(s: string) {
    forall k :: 0 <= k < |s| ==> '0' <= s[k] <= '9' || 'a' <= s[k] <= 'f' || 'A' <= s[k] <= 'F'
  }

  function PieceText(p: Piece): string {
    match p
    case Plain(c) => [c]
    case Short(c) => ['\\', c]
    case Code(h) => "\\u" + h
  }

  function PieceMeans(p: Piece): string {
    match p
    case Plain(c) => [c]
    case Short(c) => [ShortMeans(c)]
    case Code(h) => if Value(h, 16) < 0x1_0000 then Utf8(Value(h, 16)) else ""
  }

  function ShortMeans(c: char): char {
    match c
    case 'b' => 8 as char
    case 't' => 9 as char
    case 'n' => 10 as char
    case 'f' => 12 as char
    case 'r' => 13 as char
    case _ => c
  }

  lemma HexReads(h: string)
    requires |h| == 4
    ensures AllDigits(h, 16) <==> HexDigits(h)
    ensures HexDigits(h) ==> HexValue(h) == Value(h, 16)
  {
    var one, two, three := h[..1], h[..2], h[..3];
    assert one[..0] == "" && two[..1] == one && three[..2] == two;
    assert Value(one, 16) == DigitValue(h[0]);
    assert Value(two, 16) == Value(one, 16) * 16 + DigitValue(h[1]);
    assert Value(three, 16) == Value(two, 16) * 16 + DigitValue(h[2]);
    assert Value(h, 16) == Value(three, 16) * 16 + DigitValue(h[3]);
  }

  lemma HexBelow(h: string)
    requires |h| == 4 && HexDigits(h)
    ensures Value(h, 16) < 0x1_0000
  {
    HexReads(h);
  }

  // ----- UTF-8 -----

  predicate Continues(c: char) {
    0x80 <= c as int < 0xC0
  }

  /** The code point these bytes stand for (section 3 of RFC 3629), read by their payload bits. */
  function Scalar(bytes: string): Option<nat> {
    if |bytes| == 1 && bytes[0] as int < 0x80 then Some(bytes[0] as int)
    else if |bytes| == 2 && 0xC0 <= bytes[0] as int < 0xE0 && Continues(bytes[1]) then
      Some((bytes[0] as int - 0xC0) * 64 + (bytes[1] as int - 0x80))
    else if |bytes| == 3 && 0xE0 <= bytes[0] as int < 0xF0 && Continues(bytes[1]) && Continues(bytes[2]) then
      Some(((bytes[0] as int - 0xE0) * 64 + (bytes[1] as int - 0x80)) * 64 + (bytes[2] as int - 0x80))
    else None
  }

  function ScalarSize(code: nat): nat {
    if code < 0x80 then 1 else if code < 0x800 then 2 else 3
  }

  /** THE BYTES OF A CODE are the shortest that decode to it, and the only ones of that length. */
  lemma Utf8Exactly(code: nat, bytes: string)
    requires code < 0x1_0000
    ensures bytes == Utf8(code) <==> Scalar(bytes) == Some(code) && |bytes| == ScalarSize(code)
  {
    if Scalar(bytes) == Some(code) && |bytes| == ScalarSize(code) {
      assert bytes == Utf8(code);
    }
  }

  // ----- strings -----

  predicate GoodPieces(ps: seq<Piece>) {
    forall k :: 0 <= k < |ps| ==> GoodPiece(ps[k])
  }

  function PiecesText(ps: seq<Piece>): string {
    if ps == [] then "" else PieceText(ps[0]) + PiecesText(ps[1..])
  }

  function Spoken(ps: seq<Piece>): string {
    if ps == [] then "" else PieceMeans(ps[0]) + Spoken(ps[1..])
  }

  lemma ShortReads(c: char)
    ensures SimpleEscape(c) == if c in "\"\\/bfnrt" then Some(ShortMeans(c)) else None
  {
  }

  lemma CodeReads(h: string, s: string, t: string, out: string)
    requires |h| == 4 && HexDigits(h) && t == "\\u" + h + s
    ensures Value(h, 16) < 0x1_0000 && StringBody(t, out) == StringBody(s, out + Utf8(Value(h, 16)))
  {
    HexReads(h);
    HexBelow(h);
    assert t[0] == '\\' && t[1] == 'u' && t[2..6] == h && t[6..] == s;
    hide AllDigits, HexDigits, HexValue, Value, Utf8, StringBody;
    StringBodyUnicode(t, out);
  }

  lemma PieceReads(p: Piece, s: string, t: string, out: string)
    requires GoodPiece(p) && t == PieceText(p) + s
    ensures StringBody(t, out) == StringBody(s, out + PieceMeans(p))
  {
    match p
    case Plain(c) =>
      assert t[0] == c && t[1..] == s;
    case Short(c) =>
      assert t[0] == '\\' && t[1] == c && t[2..] == s;
      ShortReads(c);
      hide StringBody, SimpleEscape;
      StringBodyEscape(t, out);
    case Code(h) =>
      CodeReads(h, s, t, out);
  }

  lemma {:induction false} PiecesRead(ps: seq<Piece>, r: string, out: string, s: string, all: string)
    requires GoodPieces(ps) && s == PiecesText(ps) + "\"" + r && all == out + Spoken(ps)
    ensures Completes(s, out, all, r)
    decreases |ps|
  {
    hide StringBody, PieceText, PieceMeans, GoodPiece;
    if ps == [] {
      assert s == "\"" + r && all == out;
      StringCloses(out, r, s);
    } else {
      var tail, more := PiecesText(ps[1..]) + "\"" + r, out + PieceMeans(ps[0]);
      assert s == PieceText(ps[0]) + tail;
      assert all == more + Spoken(ps[1..]);
      PiecesRead(ps[1..], r, more, tail, all);
      PieceReads(ps[0], tail, s, out);
    }
  }

  /** The first piece of the rest of a string, and what is left behind it. */
  lemma FirstPiece(s: string, out: string) returns (p: Piece, t: string)
    requires StringBody(s, out).Ok? && s != "" && s[0] != '\"'
    ensures GoodPiece(p) && s == PieceText(p) + t && StringBody(s, out) == StringBody(t, out + PieceMeans(p))
  {
    if s[0] != '\\' {
      p, t := Plain(s[0]), s[1..];
    } else if s[1] == 'u' {
      var h := s[2..6];
      HexReads(h);
      p, t := Code(h), s[6..];
    } else {
      ShortReads(s[1]);
      p, t := Short(s[1]), s[2..];
    }
    assert s == PieceText(p) + t;
    PieceReads(p, t, s, out);
  }

  lemma {:induction false} PiecesFound(s: string, out: string) returns (ps: seq<Piece>)
    requires StringBody(s, out).Ok?
    ensures GoodPieces(ps) && s == PiecesText(ps) + "\"" + StringBody(s, out).rest
    ensures StringBody(s, out).value == out + Spoken(ps)
    decreases |s|
  {
    if s[0] == '\"' {
      ps := [];
      assert s == "\"" + s[1..];
    } else {
      var p, t := FirstPiece(s, out);
      assert |t| < |s|;
      hide StringBody, PieceText, PieceMeans, GoodPiece;
      var more := out + PieceMeans(p);
      var rest := PiecesFound(t, more);
      ps := [p] + rest;
      PiecesJoin(p, rest, ps, out, more, s, t, StringBody(t, more).rest);
    }
  }

  lemma PiecesJoin(p: Piece, rest: seq<Piece>, ps: seq<Piece>, out: string, more: string, s: string, t: string, r: string)
    requires GoodPiece(p) && GoodPieces(rest) && ps == [p] + rest && more == out + PieceMeans(p)
    requires s == PieceText(p) + t && t == PiecesText(rest) + "\"" + r
    ensures GoodPieces(ps) && s == PiecesText(ps) + "\"" + r && more + Spoken(rest) == out + Spoken(ps)
  {
    hide PieceText, PieceMeans, GoodPiece;
    assert ps[0] == p && ps[1..] == rest;
    assert PiecesText(ps) == PieceText(p) + PiecesText(rest) && Spoken(ps) == PieceMeans(p) + Spoken(rest);
    hide PiecesText, Spoken;
  }

  // ----- numbers -----

  /** A sign, the digits before the point, those behind it, and a power of ten. */
  datatype Figure = Figure(minus: bool, whole: string, point: Option<string>, power: Option<Power>)

  datatype Power = Power(mark: char, sign: string, digits: string)

  predicate Digits(s: string) {
    s != "" && forall k :: 0 <= k < |s| ==> '0' <= s[k] <= '9'
  }

  predicate GoodPower(power: Option<Power>) {
    power.Some? ==> power.value.mark in "eE" && power.value.sign in {"", "+", "-"} && Digits(power.value.digits)
  }

  predicate GoodFigure(f: Figure) {
    && Digits(f.whole) && (|f.whole| > 1 ==> f.whole[0] != '0')
    && (f.point.Some? ==> Digits(f.point.value))
    && GoodPower(f.power)
  }

  function PointText(point: Option<string>): string {
    if point.None? then "" else "." + point.value
  }

  function PowerText(power: Option<Power>): string {
    if power.None? then "" else [power.value.mark] + power.value.sign + power.value.digits
  }

  function FigureText(f: Figure): string {
    (if f.minus then "-" else "") + f.whole + (PointText(f.point) + PowerText(f.power))
  }

  predicate Floating(f: Figure) {
    f.point.Some? || f.power.Some?
  }

  /** A whole number in sixty-four bits stays one, signed if it can be; any other number is a double, if the
      library can read it. */
  function Amount(fl: Floats, f: Figure): Option<Json> {
    var n := if f.minus then 0 - Value(f.whole, 10) else Value(f.whole, 10);
    if !Floating(f) && -0x8000_0000_0000_0000 <= n <= 0x7FFF_FFFF_FFFF_FFFF then Some(Int64(n))
    else if !Floating(f) && 0 <= n <= 0xFFFF_FFFF_FFFF_FFFF then Some(UInt64(n))
    else match fl.read(FigureText(f))
      case None => None
      case Some(d) => Some(Double(d))
  }

  /** No digit comes next. */
  predicate NoDigit(r: string) {
    r != "" ==> !('0' <= r[0] <= '9')
  }

  lemma {:induction false} DigitsSkipped(ds: string, r: string)
    requires (forall k :: 0 <= k < |ds| ==> '0' <= ds[k] <= '9') && NoDigit(r)
    ensures SkipDigits(ds + r) == r
  {
    if ds == "" {
      assert ds + r == r;
    } else {
      assert (ds + r)[1..] == ds[1..] + r;
      DigitsSkipped(ds[1..], r);
    }
  }

  lemma WholeScans(minus: bool, whole: string, r: string)
    requires Digits(whole) && (|whole| > 1 ==> whole[0] != '0') && NoDigit(r)
    ensures ScanInteger((if minus then "-" else "") + whole + r) == Ok((), r)
  {
    var t := whole + r;
    var s := (if minus then "-" else "") + whole + r;
    assert t[0] == whole[0] && t[1..] == whole[1..] + r;
    assert minus ==> s[0] == '-' && s[1..] == t;
    assert !minus ==> s == t;
    DigitsSkipped(whole, r);
    hide SkipDigits;
    if |whole| == 1 {
      assert t[1..] == r;
    }
  }

  lemma PointScans(point: Option<string>, r: string)
    requires (point.Some? ==> Digits(point.value)) && NoDigit(r) && (r != "" ==> r[0] != '.')
    ensures ScanFraction(PointText(point) + r) == Ok(point.Some?, r)
  {
    if point.None? {
      assert PointText(point) + r == r;
    } else {
      assert (PointText(point) + r)[1..] == point.value + r;
      DigitsSkipped(point.value, r);
    }
  }

  lemma PowerScans(power: Option<Power>)
    requires GoodPower(power)
    ensures ScanExponent(PowerText(power)) == Ok(power.Some?, "")
    ensures NoDigit(PowerText(power)) && (PowerText(power) != "" ==> PowerText(power)[0] != '.')
  {
    if power.Some? {
      var s, ds := PowerText(power), power.value.digits;
      DigitsSkipped(ds, "");
      assert ds + "" == ds;
      if power.value.sign == "" {
        assert s[1..] == ds && s[1] == ds[0];
      } else {
        assert s[1] == power.value.sign[0] && s[2..] == ds;
      }
    }
  }

  lemma FigureScans(f: Figure)
    requires GoodFigure(f)
    ensures NumberToken(FigureText(f), Floating(f))
  {
    var power := PowerText(f.power);
    var tail := PointText(f.point) + power;
    PowerScans(f.power);
    PointScans(f.point, power);
    assert NoDigit(tail);
    WholeScans(f.minus, f.whole, tail);
    hide ScanInteger, ScanFraction, ScanExponent, PointText, PowerText;
  }

  lemma AmountReads(fl: Floats, f: Figure)
    requires GoodFigure(f)
    ensures NumberOf(fl, FigureText(f), Floating(f)) == Amount(fl, f)
  {
    var t := FigureText(f);
    if !Floating(f) {
      assert PointText(f.point) + PowerText(f.power) == "";
      assert f.minus ==> t[0] == '-' && t[1..] == f.whole;
      assert !f.minus ==> t == f.whole && t[0] != '-';
    }
    hide Value, FigureText;
  }

  lemma {:induction false} DigitsFound(s: string) returns (ds: string)
    ensures s == ds + SkipDigits(s) && forall k :: 0 <= k < |ds| ==> '0' <= ds[k] <= '9'
  {
    if s != "" && '0' <= s[0] <= '9' {
      var rest := DigitsFound(s[1..]);
      ds := [s[0]] + rest;
      assert s == [s[0]] + s[1..];
    } else {
      ds := "";
      assert s == "" + s;
    }
  }

  lemma WholeFound(s: string) returns (minus: bool, whole: string)
    requires ScanInteger(s).Ok?
    ensures Digits(whole) && (|whole| > 1 ==> whole[0] != '0')
    ensures s == (if minus then "-" else "") + whole + ScanInteger(s).rest
  {
    minus := s[0] == '-';
    var t := if minus then s[1..] else s;
    assert s == (if minus then "-" else "") + t;
    if t[0] == '0' {
      whole := "0";
      assert t == "0" + t[1..];
    } else {
      whole := DigitsFound(t);
      assert t == whole + SkipDigits(t);
      assert SkipDigits(t) == SkipDigits(t[1..]);
      assert whole != "" && whole[0] == t[0];
    }
    assert t == whole + ScanInteger(s).rest;
  }

  lemma PointFound(s: string) returns (point: Option<string>)
    requires ScanFraction(s).Ok?
    ensures (point.Some? ==> Digits(point.value)) && point.Some? == ScanFraction(s).value
    ensures s == PointText(point) + ScanFraction(s).rest
  {
    if s == "" || s[0] != '.' {
      point := None;
      assert s == "" + s;
    } else {
      var ds := DigitsFound(s[1..]);
      assert ds != "";
      point := Some(ds);
      assert s == "." + s[1..];
    }
  }

  lemma PowerJoins(mark: char, sign: string, t: string, ds: string, s: string)
    requires s == [mark] + sign + t && t == ds + SkipDigits(t)
    ensures s == PowerText(Some(Power(mark, sign, ds))) + SkipDigits(t)
  {
    hide SkipDigits;
    assert [mark] + sign + (ds + SkipDigits(t)) == [mark] + sign + ds + SkipDigits(t);
  }

  lemma PowerFound(s: string) returns (power: Option<Power>)
    requires ScanExponent(s).Ok?
    ensures GoodPower(power) && power.Some? == ScanExponent(s).value && s == PowerText(power) + ScanExponent(s).rest
  {
    if s == "" || (s[0] != 'e' && s[0] != 'E') {
      power := None;
      assert s == "" + s;
    } else {
      var signed := |s| > 1 && (s[1] == '+' || s[1] == '-');
      var sign, t := if signed then [s[1]] else "", if signed then s[2..] else s[1..];
      assert s == [s[0]] + sign + t;
      var ds := DigitsFound(t);
      assert ds != "";
      power := Some(Power(s[0], sign, ds));
      hide SkipDigits, PowerText;
      PowerJoins(s[0], sign, t, ds, s);
    }
  }

  lemma FigureJoins(f: Figure, s: string, s1: string, s2: string, s3: string)
    requires s == (if f.minus then "-" else "") + f.whole + s1 && s1 == PointText(f.point) + s2 && s2 == PowerText(f.power) + s3
    ensures s == FigureText(f) + s3
  {
    hide PointText, PowerText;
    var front, a, b := (if f.minus then "-" else "") + f.whole, PointText(f.point), PowerText(f.power);
    assert front + (a + (b + s3)) == front + (a + b) + s3;
  }

  lemma FigureFound(s: string) returns (f: Figure)
    requires ScanNumber(s).Ok?
    ensures GoodFigure(f) && Floating(f) == ScanNumber(s).value && s == FigureText(f) + ScanNumber(s).rest
  {
    hide ScanInteger, ScanFraction, ScanExponent, PointText, PowerText, Digits, FigureText;
    var s1 := ScanInteger(s).rest;
    var s2 := ScanFraction(s1).rest;
    var minus, whole := WholeFound(s);
    var point := PointFound(s1);
    var power := PowerFound(s2);
    f := Figure(minus, whole, point, power);
    FigureJoins(f, s, s1, s2, ScanExponent(s2).rest);
  }
}
