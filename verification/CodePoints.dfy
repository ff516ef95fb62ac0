/** Unicode code points and their UTF-8 encoding (section 3 of RFC 3629), as bytes and as text with one character per
    byte. */
module CodePoints {
  import opened Text

  predicate Scalar(code: nat) {
    code < 0xD800 || 0xE000 <= code < 0x11_0000
  }

  function Octets(code: nat): (b: seq<byte>)
    requires Scalar(code)
    ensures b != []
  {
    if code < 0x80 then [code]
    else if code < 0x800 then [0xC0 + code / 64, 0x80 + code % 64]
    else if code < 0x1_0000 then [0xE0 + code / 4096, 0x80 + code / 64 % 64, 0x80 + code % 64]
    else [0xF0 + code / 262144, 0x80 + code / 4096 % 64, 0x80 + code / 64 % 64, 0x80 + code % 64]
  }

  function AsText(b: seq<byte>): (s: string)
    ensures |s| == |b| && forall i :: 0 <= i < |s| ==> s[i] == b[i] as char
  {
    seq(|b|, i requires 0 <= i < |b| => b[i] as char)
  }

  function Bytes(code: nat): (s: string)
    requires Scalar(code)
    ensures s != ""
  {
    AsText(Octets(code))
  }

  predicate Scalars(codes: seq<nat>) {
    forall k :: 0 <= k < |codes| ==> Scalar(codes[k])
  }

  function EncodedBytes(codes: seq<nat>): seq<byte>
    requires Scalars(codes)
  {
    if codes == [] then [] else Octets(codes[0]) + EncodedBytes(codes[1..])
  }

  function Encoded(codes: seq<nat>): string
    requires Scalars(codes)
  {
    if codes == [] then "" else Bytes(codes[0]) + Encoded(codes[1..])
  }

  /** How many UTF-16 code units a code point takes (section 2.1 of RFC 2781). */
  function Utf16Units(code: nat): nat {
    if code < 0x1_0000 then 1 else 2
  }

  lemma {:induction false} EncodedJoin(a: seq<nat>, b: seq<nat>)
    requires Scalars(a) && Scalars(b)
    ensures Scalars(a + b) && Encoded(a + b) == Encoded(a) + Encoded(b)
  {
    hide Bytes, Scalar;
    if a == [] {
      assert a + b == b;
    } else {
      var rest := a[1..];
      assert (a + b)[0] == a[0] && (a + b)[1..] == rest + b;
      EncodedJoin(rest, b);
      assert Bytes(a[0]) + (Encoded(rest) + Encoded(b)) == Bytes(a[0]) + Encoded(rest) + Encoded(b);
    }
  }
}
