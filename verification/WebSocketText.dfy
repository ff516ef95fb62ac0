/** The two validators of websocket.cpp: text in UTF-8 and close codes, against their definitions in section 3 of
    RFC 3629 and section 7.4 of RFC 6455. */
module WebSocketText {
  import opened Text
  import opened CodePoints
  import opened WebSocketWire
  import opened WebSocket

  // ----- UTF-8 as the code checks it -----

  /** From the first byte of a longer character: how many bytes, its payload bits, and the least code it may have. */
  function Shape(first: byte): (nat, nat, nat) {
    if 0xC0 <= first < 0xE0 then (2, first - 0xC0, 0x80)
    else if 0xE0 <= first < 0xF0 then (3, first - 0xE0, 0x800)
    else if 0xF0 <= first < 0xF8 then (4, first - 0xF0, 0x1_0000)
    else (0, 0, 0)
  }

  /** Six bits more from each byte that continues a character. */
  function Continued(bytes: seq<byte>, code: nat): Option<nat>
    decreases |bytes|
  {
    if bytes == [] then Some(code)
    else if 0x80 <= bytes[0] < 0xC0 then Continued(bytes[1..], code * 64 + (bytes[0] - 0x80))
    else None
  }

  predicate GoodCode(code: nat, minimum: nat) {
    minimum <= code <= 0x10_FFFF && !(0xD800 <= code <= 0xDFFF)
  }

  predicate ValidUtf8(s: seq<byte>)
    decreases |s|
  {
    s == [] ||
    if s[0] <= 0x7F then ValidUtf8(s[1..])
    else
      var (count, payload, minimum) := Shape(s[0]);
      && 0 < count <= |s|
      && var code := Continued(s[1..count], payload);
         code.Some? && GoodCode(code.value, minimum) && ValidUtf8(s[count..])
  }

  /** The loop over the characters, and the loop over the bytes of one. */
  method CheckUtf8(value: seq<byte>) returns (ok: bool)
    ensures ok == ValidUtf8(value)
  {
    var cursor := 0;
    while cursor < |value|
      invariant 0 <= cursor <= |value| && ValidUtf8(value[cursor..]) == ValidUtf8(value)
      decreases |value| - cursor
    {
      var rest := value[cursor..];
      var first := value[cursor];
      if first <= 0x7F {
        assert rest[1..] == value[cursor + 1..];
        cursor := cursor + 1;
        continue;
      }
      var (count, payload, minimum) := Shape(first);
      if count == 0 || cursor + count > |value| { return false; }
      var code: nat, index: nat := payload, 1;
      while index < count
        invariant 1 <= index <= count && Continued(rest[index..count], code) == Continued(rest[1..count], payload)
      {
        var next: int := value[cursor + index];
        assert rest[index..count][0] == next && rest[index..count][1..] == rest[index + 1..count];
        if next < 0x80 || next >= 0xC0 { return false; }
        code, index := code * 64 + (next - 0x80), index + 1;
      }
      assert rest[count..count] == [];
      if !GoodCode(code, minimum) { return false; }
      assert rest[count..] == value[cursor + count..];
      cursor := cursor + count;
    }
    assert value[cursor..] == [];
    return true;
  }

  // ----- one character -----

  lemma ContinuedOne(b: byte, code: nat)
    ensures Continued([b], code) == if 0x80 <= b < 0xC0 then Some(code * 64 + (b - 0x80)) else None
  {
    assert [b][1..] == [];
  }

  lemma ContinuedMore(b: byte, rest: seq<byte>, code: nat)
    ensures Continued([b] + rest, code) == if 0x80 <= b < 0xC0 then Continued(rest, code * 64 + (b - 0x80)) else None
  {
    assert ([b] + rest)[1..] == rest;
  }

  lemma ContinuedTwo(b: byte, c: byte, code: nat)
    ensures Continued([b, c], code) ==
            if 0x80 <= b < 0xC0 && 0x80 <= c < 0xC0 then Some((code * 64 + (b - 0x80)) * 64 + (c - 0x80)) else None
  {
    assert [b, c] == [b] + [c];
    ContinuedMore(b, [c], code);
    if 0x80 <= b < 0xC0 {
      ContinuedOne(c, code * 64 + (b - 0x80));
    }
    hide Continued;
  }

  lemma ContinuedThree(b: byte, c: byte, d: byte, code: nat)
    ensures Continued([b, c, d], code) ==
            if 0x80 <= b < 0xC0 && 0x80 <= c < 0xC0 && 0x80 <= d < 0xC0
            then Some(((code * 64 + (b - 0x80)) * 64 + (c - 0x80)) * 64 + (d - 0x80)) else None
  {
    assert [b, c, d] == [b] + [c, d];
    ContinuedMore(b, [c, d], code);
    if 0x80 <= b < 0xC0 {
      ContinuedTwo(c, d, code * 64 + (b - 0x80));
    }
    hide Continued;
  }

  /** A code in groups of six bits. */
  lemma SixBits(code: nat)
    ensures code == code / 64 * 64 + code % 64
    ensures code / 64 == code / 4096 * 64 + code / 64 % 64
    ensures code / 4096 == code / 262144 * 64 + code / 4096 % 64
  {
    assert code / 64 / 64 == code / 4096 && code / 4096 / 64 == code / 262144;
  }

  /** The bytes of a character, read back. */
  lemma CodeReads(code: nat)
    requires Scalar(code) && code >= 0x80
    ensures var b := Octets(code); var (count, payload, minimum) := Shape(b[0]);
            b[0] > 0x7F && count == |b| && Continued(b[1..], payload) == Some(code) && GoodCode(code, minimum)
  {
    var b := Octets(code);
    SixBits(code);
    if code < 0x800 {
      assert b[1..] == [b[1]];
      ContinuedOne(b[1], code / 64);
    } else if code < 0x1_0000 {
      assert b[1..] == [b[1], b[2]];
      ContinuedTwo(b[1], b[2], code / 4096);
    } else {
      assert b[1..] == [b[1], b[2], b[3]];
      ContinuedThree(b[1], b[2], b[3], code / 262144);
    }
    hide Continued;
  }

  lemma CharValid(code: nat, rest: seq<byte>, s: seq<byte>)
    requires Scalar(code) && s == Octets(code) + rest
    ensures ValidUtf8(s) == ValidUtf8(rest)
  {
    var b := Octets(code);
    assert s[0] == b[0];
    if code < 0x80 {
      assert s[1..] == rest;
    } else {
      CodeReads(code);
      assert s[1..|b|] == b[1..] && s[|b|..] == rest;
      hide Octets, Shape, Continued, GoodCode;
    }
  }

  lemma TwoCode(a: byte, b: byte, code: nat)
    requires 0xC0 <= a < 0xE0 && 0x80 <= b < 0xC0 && code == (a - 0xC0) * 64 + (b - 0x80) && GoodCode(code, 0x80)
    ensures Scalar(code) && Octets(code) == [a, b]
  {
  }

  lemma ThreeCode(a: byte, b: byte, c: byte, code: nat)
    requires 0xE0 <= a < 0xF0 && 0x80 <= b < 0xC0 && 0x80 <= c < 0xC0
    requires code == ((a - 0xE0) * 64 + (b - 0x80)) * 64 + (c - 0x80) && GoodCode(code, 0x800)
    ensures Scalar(code) && Octets(code) == [a, b, c]
  {
    assert code / 64 == (a - 0xE0) * 64 + (b - 0x80) && code / 4096 == a - 0xE0;
  }

  lemma FourCode(a: byte, b: byte, c: byte, d: byte, code: nat)
    requires 0xF0 <= a < 0xF8 && 0x80 <= b < 0xC0 && 0x80 <= c < 0xC0 && 0x80 <= d < 0xC0
    requires code == (((a - 0xF0) * 64 + (b - 0x80)) * 64 + (c - 0x80)) * 64 + (d - 0x80) && GoodCode(code, 0x1_0000)
    ensures Scalar(code) && Octets(code) == [a, b, c, d]
  {
    assert code / 64 == ((a - 0xF0) * 64 + (b - 0x80)) * 64 + (c - 0x80);
    assert code / 4096 == (a - 0xF0) * 64 + (b - 0x80) && code / 262144 == a - 0xF0;
  }

  /** The code of the first character, whose bytes these are. */
  lemma FirstCode(s: seq<byte>) returns (code: nat)
    requires s != [] && ValidUtf8(s)
    ensures Scalar(code) && Octets(code) <= s && ValidUtf8(s[|Octets(code)|..])
  {
    if s[0] <= 0x7F {
      code := s[0];
    } else {
      var (count, payload, minimum) := Shape(s[0]);
      code := Continued(s[1..count], payload).value;
      if count == 2 {
        assert s[1..2] == [s[1]];
        ContinuedOne(s[1], payload);
        TwoCode(s[0], s[1], code);
        assert s[..2] == [s[0], s[1]];
      } else if count == 3 {
        assert s[1..3] == [s[1], s[2]];
        ContinuedTwo(s[1], s[2], payload);
        ThreeCode(s[0], s[1], s[2], code);
        assert s[..3] == [s[0], s[1], s[2]];
      } else {
        assert s[1..4] == [s[1], s[2], s[3]];
        ContinuedThree(s[1], s[2], s[3], payload);
        FourCode(s[0], s[1], s[2], s[3], code);
        assert s[..4] == [s[0], s[1], s[2], s[3]];
      }
      hide Continued, Octets;
    }
  }

  // ----- whole texts -----

  lemma {:induction false} EncodedValid(codes: seq<nat>)
    requires Scalars(codes)
    ensures ValidUtf8(EncodedBytes(codes))
  {
    if codes != [] {
      EncodedValid(codes[1..]);
      CharValid(codes[0], EncodedBytes(codes[1..]), EncodedBytes(codes));
    }
  }

  lemma {:induction false} ValidDecodes(s: seq<byte>) returns (codes: seq<nat>)
    requires ValidUtf8(s)
    ensures Scalars(codes) && s == EncodedBytes(codes)
    decreases |s|
  {
    if s == [] {
      codes := [];
    } else {
      hide *;
      var code, rest := FirstSplit(s);
      var more := ValidDecodes(rest);
      Prepended(code, more);
      codes := [code] + more;
    }
  }

  lemma FirstSplit(s: seq<byte>) returns (code: nat, rest: seq<byte>)
    requires s != [] && ValidUtf8(s)
    ensures Scalar(code) && s == Octets(code) + rest && |rest| < |s| && ValidUtf8(rest)
  {
    hide *;
    code := FirstCode(s);
    rest := s[|Octets(code)|..];
  }

  lemma Prepended(code: nat, more: seq<nat>)
    requires Scalar(code) && Scalars(more)
    ensures Scalars([code] + more) && EncodedBytes([code] + more) == Octets(code) + EncodedBytes(more)
  {
    hide Scalar, Octets;
    assert ([code] + more)[0] == code && ([code] + more)[1..] == more;
  }

  /** UTF-8 EXACTLY.  A text message is accepted as text if and only if it encodes code points. */
  lemma Utf8Exactly(s: seq<byte>)
    ensures ValidUtf8(s) <==> exists codes :: Scalars(codes) && s == EncodedBytes(codes)
  {
    if ValidUtf8(s) {
      var codes := ValidDecodes(s);
    }
    if codes :| Scalars(codes) && s == EncodedBytes(codes) {
      EncodedValid(codes);
    }
  }

  // ----- close codes -----

  predicate ValidCloseCode(code: nat) {
    3000 <= code <= 4999 || code in {1000, 1001, 1002, 1003, 1007, 1008, 1009, 1010, 1011, 1012, 1013, 1014}
  }

  /** A close frame may carry the registered codes, but none of those reserved for use inside an endpoint, and the codes
      left to libraries and applications. */
  lemma CloseCodesExactly(code: nat)
    ensures ValidCloseCode(code) <==> (1000 <= code < 1015 && !(1004 <= code <= 1006)) || 3000 <= code < 5000
  {
  }

  /** The rules the server runs with. */
  const RULES := (max: nat) => Rules(max, (s: seq<byte>) => ValidUtf8(s), (code: nat) => ValidCloseCode(code))
}
