/** WebSocket frames on the wire: `parse_client_frame`, and the client that writes what it reads. */
module WebSocketWire {
  import opened Text

  datatype Opcode = Continuation | TextData | BinaryData | CloseFrame | Ping | Pong

  function OpcodeOf(n: nat): Option<Opcode> {
    if n == 0 then Some(Continuation) else if n == 1 then Some(TextData) else if n == 2 then Some(BinaryData)
    else if n == 8 then Some(CloseFrame) else if n == 9 then Some(Ping) else if n == 10 then Some(Pong) else None
  }

  function Code(op: Opcode): nat {
    match op
    case Continuation => 0
    case TextData => 1
    case BinaryData => 2
    case CloseFrame => 8
    case Ping => 9
    case Pong => 10
  }

  predicate IsControl(op: Opcode) {
    op.CloseFrame? || op.Ping? || op.Pong?
  }

  datatype Frame = Frame(final: bool, opcode: Opcode, payload: seq<byte>)

  /** `Invalid` is std::invalid_argument, `TooBig` is std::length_error. */
  datatype WireError = Invalid | TooBig

  datatype Parse = More | Got(frame: Frame, consumed: nat) | Broken(error: WireError)

  // ----- bits -----

  /** Exclusive or, bit by bit. */
  function Xor(a: nat, b: nat, bits: nat): nat {
    if bits == 0 then 0 else (a + b) % 2 + 2 * Xor(a / 2, b / 2, bits - 1)
  }

  function Power2(n: nat): (p: nat)
    ensures p >= 1
  {
    if n == 0 then 1 else 2 * Power2(n - 1)
  }

  lemma {:induction false} XorBound(a: nat, b: nat, bits: nat)
    ensures Xor(a, b, bits) < Power2(bits)
  {
    if bits > 0 {
      XorBound(a / 2, b / 2, bits - 1);
    }
  }

  lemma ParityTwice(a: nat, b: nat, y: nat)
    ensures var x := (a + b) % 2 + 2 * y;
            x / 2 == y && (x + b) % 2 == a % 2
  {
    var p := (a + b) % 2;
    assert (p + 2 * y) / 2 == y;
    assert (p + 2 * y + b) % 2 == (p + b) % 2;
  }

  lemma {:induction false} XorTwice(a: nat, b: nat, bits: nat)
    requires a < Power2(bits)
    ensures Xor(Xor(a, b, bits), b, bits) == a
  {
    if bits > 0 {
      var y := Xor(a / 2, b / 2, bits - 1);
      XorTwice(a / 2, b / 2, bits - 1);
      ParityTwice(a, b, y);
      var x := Xor(a, b, bits);
      assert x == (a + b) % 2 + 2 * y;
      assert Xor(x, b, bits) == (x + b) % 2 + 2 * Xor(x / 2, b / 2, bits - 1);
    }
  }

  function Masked(x: byte, m: byte): byte {
    XorBound(x, m, 8);
    assert Power2(8) == 256 by { assert Power2(4) == 16; }
    Xor(x, m, 8)
  }

  function Unmask(data: seq<byte>, mask: seq<byte>): (p: seq<byte>)
    requires |mask| == 4
    ensures |p| == |data|
    ensures forall i :: 0 <= i < |data| ==> p[i] == Masked(data[i], mask[i % 4])
  {
    seq(|data|, i requires 0 <= i < |data| => Masked(data[i], mask[i % 4]))
  }

  /** Masking twice with the same key gives the data back. */
  lemma UnmaskTwice(data: seq<byte>, mask: seq<byte>)
    requires |mask| == 4
    ensures Unmask(Unmask(data, mask), mask) == data
  {
    assert Power2(8) == 256 by { assert Power2(4) == 16; }
    forall i | 0 <= i < |data| ensures Unmask(Unmask(data, mask), mask)[i] == data[i] {
      XorTwice(data[i], mask[i % 4], 8);
    }
  }

  /** Big-endian number. */
  function Big(bytes: seq<byte>): nat {
    if bytes == [] then 0 else Big(bytes[..|bytes| - 1]) * 256 + bytes[|bytes| - 1]
  }

  function ToBig(n: nat, width: nat): (b: seq<byte>)
    ensures |b| == width
  {
    if width == 0 then [] else ToBig(n / 256, width - 1) + [n % 256]
  }

  function Power256(n: nat): nat {
    if n == 0 then 1 else 256 * Power256(n - 1)
  }

  lemma {:induction false} BigReads(n: nat, width: nat)
    requires n < Power256(width)
    ensures Big(ToBig(n, width)) == n
  {
    if width > 0 {
      BigReads(n / 256, width - 1);
      var b := ToBig(n, width);
      assert b[..width - 1] == ToBig(n / 256, width - 1);
    }
  }

  /** The first byte of a number below half the range has its top bit clear. */
  lemma {:induction false} TopByte(n: nat, width: nat)
    requires width >= 1 && 2 * n < Power256(width)
    ensures ToBig(n, width)[0] < 128
  {
    if width > 1 {
      TopByte(n / 256, width - 1);
    }
  }

  // ----- parse_client_frame -----

  /** The first bytes of a frame: flags, opcode and payload size, and where they end. */
  datatype Header = NeedMore | Malformed | Header(final: bool, opcode: Opcode, size: nat, cursor: nat)

  function Length(bytes: seq<byte>): Option<(nat, nat)>
    requires |bytes| >= 2
  {
    var short := bytes[1] % 128;
    if short == 126 then if |bytes| < 4 then None else Some((Big(bytes[2..4]), 4))
    else if short == 127 then if |bytes| < 10 then None else Some((Big(bytes[2..10]), 10))
    else Some((short, 2))
  }

  function ReadHeader(bytes: seq<byte>): Header {
    if |bytes| < 2 then NeedMore
    else
      var first, second := bytes[0], bytes[1];
      var opcode := OpcodeOf(first % 16);
      if first / 16 % 8 != 0 || opcode.None? || second < 128 then Malformed
      else match Length(bytes)
        case None => NeedMore
        case Some((size, cursor)) =>
          if cursor == 4 && size < 126 then Malformed
          else if cursor == 10 && (bytes[2] >= 128 || size <= 65535) then Malformed
          else if IsControl(opcode.value) && (first < 128 || size > 125) then Malformed
          else Header(first >= 128, opcode.value, size, cursor)
  }

  function ParseClientFrame(bytes: seq<byte>, max: nat): (p: Parse)
    ensures p.Got? ==> 2 <= p.consumed <= |bytes|
  {
    match ReadHeader(bytes)
    case NeedMore => More
    case Malformed => Broken(Invalid)
    case Header(final, opcode, size, cursor) =>
      if size > max then Broken(TooBig)
      else if |bytes| < cursor + 4 + size then More
      else
        var mask, data := bytes[cursor..cursor + 4], bytes[cursor + 4..cursor + 4 + size];
        Got(Frame(final, opcode, Unmask(data, mask)), cursor + 4 + size)
  }

  /** What has been recognised stays recognised when more bytes follow. */
  lemma HeaderAppend(bytes: seq<byte>, more: seq<byte>)
    requires !ReadHeader(bytes).NeedMore?
    ensures ReadHeader(bytes + more) == ReadHeader(bytes)
  {
    var all := bytes + more;
    assert |bytes| >= 4 ==> all[2..4] == bytes[2..4];
    assert |bytes| >= 10 ==> all[2..10] == bytes[2..10];
  }

  lemma ParseAppend(bytes: seq<byte>, more: seq<byte>, max: nat)
    requires !ParseClientFrame(bytes, max).More?
    ensures ParseClientFrame(bytes + more, max) == ParseClientFrame(bytes, max)
  {
    hide ReadHeader, Unmask;
    HeaderAppend(bytes, more);
    var h := ReadHeader(bytes);
    if h.Header? && h.size <= max {
      var all, c := bytes + more, h.cursor;
      assert all[c..c + 4] == bytes[c..c + 4] && all[c + 4..c + 4 + h.size] == bytes[c + 4..c + 4 + h.size];
    }
  }

  // ----- the client -----

  predicate Sendable(f: Frame) {
    && |f.payload| < Power256(8) / 2
    && (IsControl(f.opcode) ==> f.final && |f.payload| <= 125)
  }

  /** The shortest length form, as section 5.2 of RFC 6455 requires. */
  function LengthBytes(n: nat): seq<byte> {
    if n <= 125 then [128 + n]
    else if n <= 65535 then [254] + ToBig(n, 2)
    else [255] + ToBig(n, 8)
  }

  function EncodeClientFrame(f: Frame, mask: seq<byte>): seq<byte>
    requires |mask| == 4
  {
    [(if f.final then 128 else 0) + Code(f.opcode)] + LengthBytes(|f.payload|) + mask + Unmask(f.payload, mask)
  }

  /** The length form, read back. */
  lemma EncodedLength(n: nat, bytes: seq<byte>)
    requires n < Power256(8) / 2 && |bytes| >= 1 + |LengthBytes(n)| && bytes[1..1 + |LengthBytes(n)|] == LengthBytes(n)
    ensures Length(bytes) == Some((n, 1 + |LengthBytes(n)|)) && bytes[1] >= 128
    ensures |LengthBytes(n)| == if n <= 125 then 1 else if n <= 65535 then 3 else 9
    ensures n > 65535 ==> bytes[2] < 128
  {
    var lb := LengthBytes(n);
    assert bytes[1] == bytes[1..1 + |lb|][0] == lb[0];
    if 125 < n <= 65535 {
      assert Power256(2) == 65536 by { assert Power256(1) == 256; }
      BigReads(n, 2);
      assert bytes[2..4] == bytes[1..4][1..] == ToBig(n, 2);
    } else if n > 65535 {
      BigReads(n, 8);
      TopByte(n, 8);
      assert bytes[2..10] == bytes[1..10][1..] == ToBig(n, 8);
      assert bytes[2] == bytes[2..10][0];
    }
  }

  lemma EncodedHeader(f: Frame, bytes: seq<byte>)
    requires Sendable(f) && |bytes| >= 1 + |LengthBytes(|f.payload|)|
    requires bytes[0] == (if f.final then 128 else 0) + Code(f.opcode)
    requires bytes[1..1 + |LengthBytes(|f.payload|)|] == LengthBytes(|f.payload|)
    ensures ReadHeader(bytes) == Header(f.final, f.opcode, |f.payload|, 1 + |LengthBytes(|f.payload|)|)
  {
    EncodedLength(|f.payload|, bytes);
    FirstByte(f.final, f.opcode, bytes[0]);
    hide LengthBytes, Length, Big, Power256, OpcodeOf, Code, IsControl;
  }

  lemma FirstByte(final: bool, op: Opcode, first: byte)
    requires first == (if final then 128 else 0) + Code(op)
    ensures OpcodeOf(first % 16) == Some(op) && first / 16 % 8 == 0 && (first >= 128 <==> final)
  {
  }

  /** The server reads back exactly the frame the client wrote, whatever follows it. */
  lemma FrameRoundTrip(f: Frame, mask: seq<byte>, rest: seq<byte>, max: nat)
    requires Sendable(f) && |mask| == 4 && |f.payload| <= max
    ensures ParseClientFrame(EncodeClientFrame(f, mask) + rest, max) == Got(f, |EncodeClientFrame(f, mask)|)
  {
    hide ReadHeader, Unmask, LengthBytes, Sendable;
    var lb, data := LengthBytes(|f.payload|), Unmask(f.payload, mask);
    var all, c := EncodeClientFrame(f, mask) + rest, 1 + |LengthBytes(|f.payload|)|;
    assert all[1..c] == lb;
    EncodedHeader(f, all);
    assert all[c..c + 4] == mask && all[c + 4..c + 4 + |data|] == data;
    UnmaskTwice(f.payload, mask);
  }
}
