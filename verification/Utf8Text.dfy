/** UTF-8 (section 3 of RFC 3629) as code points and their bytes, and the proof that the text check of uploads.cpp
    accepts exactly the encodings of text. */
module Utf8Text {
  import opened Text
  import opened CodePoints
  import opened Multipart

  // ----- characters -----

  /** A character of a text file: no control characters but tab and line ends. */
  predicate TextCode(code: nat) {
    Scalar(code) && (code >= 32 || code == 9 || code == 10 || code == 13) && code != 127
  }

  /** A character of a name: no control characters at all. */
  predicate NameCode(code: nat) {
    Scalar(code) && code >= 32 && code != 127
  }

  predicate AllText(codes: seq<nat>) {
    forall k :: 0 <= k < |codes| ==> TextCode(codes[k])
  }

  predicate AllName(codes: seq<nat>) {
    forall k :: 0 <= k < |codes| ==> NameCode(codes[k])
  }

  lemma TextScalars(codes: seq<nat>)
    requires AllText(codes)
    ensures Scalars(codes)
  {
  }

  // ----- one character -----

  lemma OneByte(code: nat, rest: string, s: string)
    requires code < 0x80 && s == [code as char] + rest
    ensures IsText(s) <==> TextCode(code) && IsText(rest)
  {
    assert s[0] as int == code && s[1..] == rest;
  }

  predicate Continues(c: char) {
    0x80 <= c as int < 0xC0
  }

  /** What the check asks of a lead byte and the byte after it. */
  predicate Leads(c: int, next: int) {
    !(c == 0xe0 && next < 0xa0) && !(c == 0xed && next >= 0xa0) && !(c == 0xf0 && next < 0x90) && !(c == 0xf4 && next >= 0x90)
  }

  lemma TwoBytes(s: string, rest: string)
    requires |s| >= 2 && rest == s[2..] && 0xc2 <= s[0] as int <= 0xdf
    ensures IsText(s) <==> Continues(s[1]) && IsText(rest)
  {
    var more := 1;
    assert s[1 + more..] == rest;
  }

  lemma ThreeBytes(s: string, rest: string)
    requires |s| >= 3 && rest == s[3..] && 0xe0 <= s[0] as int <= 0xef
    ensures IsText(s) <==> Leads(s[0] as int, s[1] as int) && Continues(s[1]) && Continues(s[2]) && IsText(rest)
  {
    var more := 2;
    assert s[1 + more..] == rest;
  }

  lemma FourBytes(s: string, rest: string)
    requires |s| >= 4 && rest == s[4..] && 0xf0 <= s[0] as int <= 0xf4
    ensures IsText(s) <==> Leads(s[0] as int, s[1] as int) && Continues(s[1]) && Continues(s[2]) && Continues(s[3]) && IsText(rest)
  {
    var more := 3;
    assert s[1 + more..] == rest;
  }

  lemma WideLeads(code: nat)
    requires 0x80 <= code && Scalar(code)
    ensures var b := Bytes(code);
            && |b| == (if code < 0x800 then 2 else if code < 0x1_0000 then 3 else 4)
            && (if |b| == 2 then 0xc2 <= b[0] as int <= 0xdf else if |b| == 3 then 0xe0 <= b[0] as int <= 0xef else 0xf0 <= b[0] as int <= 0xf4)
            && Leads(b[0] as int, b[1] as int) && forall k :: 1 <= k < |b| ==> Continues(b[k])
  {
  }

  /** Text goes on behind a character exactly if that is a character of a text. */
  lemma CharText(code: nat, rest: string, s: string)
    requires Scalar(code) && s == Bytes(code) + rest
    ensures IsText(s) <==> TextCode(code) && IsText(rest)
  {
    if code < 0x80 {
      OneByte(code, rest, s);
    } else {
      var b := Bytes(code);
      WideLeads(code);
      assert s[|b|..] == rest && forall k :: 0 <= k < |b| ==> s[k] == b[k];
      hide IsText, Bytes, Leads, Continues;
      if |b| == 2 { TwoBytes(s, rest); } else if |b| == 3 { ThreeBytes(s, rest); } else { FourBytes(s, rest); }
    }
  }

  // ----- finding the character -----

  lemma TwoCode(a: int, b: int) returns (code: nat)
    requires 0xc2 <= a <= 0xdf && 0x80 <= b < 0xC0
    ensures Scalar(code) && Bytes(code) == [a as char, b as char] && code >= 0x80
  {
    code := (a - 0xC0) * 64 + (b - 0x80);
  }

  lemma ThreeCode(a: int, b: int, c: int) returns (code: nat)
    requires 0xe0 <= a <= 0xef && 0x80 <= b < 0xC0 && 0x80 <= c < 0xC0 && Leads(a, b)
    ensures Scalar(code) && Bytes(code) == [a as char, b as char, c as char] && code >= 0x80
  {
    code := (a - 0xE0) * 4096 + (b - 0x80) * 64 + (c - 0x80);
    assert code / 4096 == a - 0xE0;
    assert code / 64 == (a - 0xE0) * 64 + (b - 0x80);
    assert code / 64 % 64 == b - 0x80;
  }

  lemma FourCode(a: int, b: int, c: int, d: int) returns (code: nat)
    requires 0xf0 <= a <= 0xf4 && 0x80 <= b < 0xC0 && 0x80 <= c < 0xC0 && 0x80 <= d < 0xC0 && Leads(a, b)
    ensures Scalar(code) && Bytes(code) == [a as char, b as char, c as char, d as char] && code >= 0x80
  {
    code := (a - 0xF0) * 262144 + (b - 0x80) * 4096 + (c - 0x80) * 64 + (d - 0x80);
    assert code / 262144 == a - 0xF0;
    assert code / 4096 == (a - 0xF0) * 64 + (b - 0x80);
    assert code / 4096 % 64 == b - 0x80;
    assert code / 64 == (a - 0xF0) * 4096 + (b - 0x80) * 64 + (c - 0x80);
    assert code / 64 % 64 == c - 0x80;
  }

  lemma FirstCode(s: string) returns (code: nat, rest: string)
    requires s != "" && IsText(s)
    ensures TextCode(code) && s == Bytes(code) + rest && IsText(rest)
  {
    var c := s[0] as int;
    if c < 0x80 {
      code, rest := c, s[1..];
      assert s == [s[0]] + rest;
    } else if c <= 0xdf {
      rest := s[2..];
      TwoBytes(s, rest);
      code := TwoCode(c, s[1] as int);
      assert s == [s[0], s[1]] + rest;
    } else if c <= 0xef {
      rest := s[3..];
      ThreeBytes(s, rest);
      code := ThreeCode(c, s[1] as int, s[2] as int);
      assert s == [s[0], s[1], s[2]] + rest;
    } else {
      rest := s[4..];
      FourBytes(s, rest);
      code := FourCode(c, s[1] as int, s[2] as int, s[3] as int);
      assert s == [s[0], s[1], s[2], s[3]] + rest;
    }
  }

  // ----- whole texts -----

  lemma {:induction false} EncodedIsText(codes: seq<nat>)
    requires Scalars(codes) && AllText(codes)
    ensures IsText(Encoded(codes))
  {
    if codes != [] {
      EncodedIsText(codes[1..]);
      CharText(codes[0], Encoded(codes[1..]), Encoded(codes));
    }
  }

  lemma {:induction false} TextDecodes(s: string) returns (codes: seq<nat>)
    requires IsText(s)
    ensures Scalars(codes) && AllText(codes) && s == Encoded(codes)
    decreases |s|
  {
    if s == "" {
      codes := [];
    } else {
      var code, rest := FirstCode(s);
      hide IsText, Bytes;
      var more := TextDecodes(rest);
      codes := [code] + more;
      assert codes[0] == code && codes[1..] == more;
    }
  }

  /** TEXT EXACTLY.  The check accepts a byte string if and only if it is the UTF-8 encoding of text. */
  lemma TextExactly(s: string)
    ensures IsText(s) <==> exists codes :: Scalars(codes) && AllText(codes) && s == Encoded(codes)
  {
    if IsText(s) {
      var codes := TextDecodes(s);
    }
    if codes :| Scalars(codes) && AllText(codes) && s == Encoded(codes) {
      EncodedIsText(codes);
    }
  }

  // ----- names -----

  ghost predicate NoControl(s: string) {
    forall i :: 0 <= i < |s| ==> s[i] as int >= 32 && s[i] as int != 127
  }

  lemma CharControl(code: nat)
    requires Scalar(code)
    ensures NoControl(Bytes(code)) <==> code >= 32 && code != 127
  {
    if code < 0x80 {
      assert Bytes(code)[0] as int == code;
    }
  }

  lemma ControlSplit(a: string, b: string)
    ensures NoControl(a + b) <==> NoControl(a) && NoControl(b)
  {
    var s := a + b;
    assert forall i :: 0 <= i < |a| ==> s[i] == a[i];
    assert forall i :: 0 <= i < |b| ==> b[i] == s[|a| + i];
  }

  lemma {:induction false} EncodedControl(codes: seq<nat>)
    requires Scalars(codes)
    ensures NoControl(Encoded(codes)) <==> AllName(codes)
  {
    if codes != [] {
      var rest := codes[1..];
      EncodedControl(rest);
      CharControl(codes[0]);
      ControlSplit(Bytes(codes[0]), Encoded(rest));
      hide NoControl, Bytes;
      assert AllName(codes) <==> NameCode(codes[0]) && AllName(rest) by {
        assert forall k :: 1 <= k < |codes| ==> codes[k] == rest[k - 1];
      }
    }
  }

  /** A name is safe exactly when it is the encoding of one to 255 bytes without control characters. */
  lemma SafeNameExactly(name: string)
    ensures SafeName(name) <==>
            0 < |name| <= 255 && exists codes :: Scalars(codes) && AllName(codes) && name == Encoded(codes)
  {
    hide IsText, Encoded;
    TextExactly(name);
    assert (forall i :: 0 <= i < |name| ==> !Control(name[i])) <==> NoControl(name);
    forall codes | Scalars(codes) && AllText(codes) && name == Encoded(codes) ensures NoControl(name) <==> AllName(codes) {
      EncodedControl(codes);
    }
  }
}
