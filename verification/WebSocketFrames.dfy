/** The frame parser decides the framing of section 5.2 of RFC 6455: it takes exactly the frames a client may send,
    refuses what cannot begin one, and waits only for what can. */
module WebSocketFrames {
  import opened Text
  import opened WebSocketWire

  // ----- masking, bit by bit -----

  function Bit(n: nat, i: nat): nat {
    if i == 0 then n % 2 else Bit(n / 2, i - 1)
  }

  lemma {:induction false} XorBits(a: nat, b: nat, bits: nat, i: nat)
    requires i < bits
    ensures Bit(Xor(a, b, bits), i) == if Bit(a, i) == Bit(b, i) then 0 else 1
  {
    if i == 0 {
      ParityBits(a, b, Xor(a / 2, b / 2, bits - 1));
    } else {
      ParityTwice(a, b, Xor(a / 2, b / 2, bits - 1));
      XorBits(a / 2, b / 2, bits - 1, i - 1);
    }
  }

  lemma ParityBits(a: nat, b: nat, y: nat)
    ensures ((a + b) % 2 + 2 * y) % 2 == if a % 2 == b % 2 then 0 else 1
  {
  }

  /** MASKING (section 5.3 of RFC 6455): bit i of byte k is flipped exactly when bit i of mask byte k mod 4 is set. */
  lemma MaskFlips(data: seq<byte>, mask: seq<byte>, k: nat, i: nat)
    requires |mask| == 4 && k < |data| && i < 8
    ensures (Bit(Unmask(data, mask)[k], i) != Bit(data[k], i)) <==> Bit(mask[k % 4], i) == 1
  {
    XorBits(data[k], mask[k % 4], 8, i);
    BitIs(mask[k % 4], i);
    BitIs(data[k], i);
    hide Bit, Xor;
  }

  lemma {:induction false} BitIs(n: nat, i: nat)
    ensures Bit(n, i) == 0 || Bit(n, i) == 1
  {
    if i > 0 {
      BitIs(n / 2, i - 1);
    }
  }

  // ----- big-endian numbers, the other way -----

  lemma {:induction false} BigWrites(b: seq<byte>)
    ensures ToBig(Big(b), |b|) == b
  {
    if b != [] {
      var front, last := b[..|b| - 1], b[|b| - 1];
      BigWrites(front);
      assert (Big(front) * 256 + last) / 256 == Big(front) && (Big(front) * 256 + last) % 256 == last;
    }
  }

  lemma {:induction false} BigBelow(b: seq<byte>)
    ensures Big(b) < Power256(|b|)
    ensures b != [] && b[0] < 128 ==> 2 * Big(b) < Power256(|b|)
  {
    if |b| > 1 {
      var front := b[..|b| - 1];
      BigBelow(front);
      assert front[0] == b[0];
    } else if |b| == 1 {
      assert b[..0] == [];
      assert Power256(1) == 256;
    }
  }

  lemma Power256Of2()
    ensures Power256(2) == 65536
  {
    assert Power256(1) == 256;
  }

  // ----- what the parser reads is what a client writes -----

  /** The bytes begin with this frame as a client writes it. */
  ghost predicate BeginsWith(bytes: seq<byte>, f: Frame, mask: seq<byte>) {
    |mask| == 4 && Sendable(f) && EncodeClientFrame(f, mask) <= bytes
  }

  /** The bytes begin with this frame, or this frame begins with the bytes. */
  ghost predicate MayBe(bytes: seq<byte>, f: Frame, mask: seq<byte>) {
    |mask| == 4 && Sendable(f) && (EncodeClientFrame(f, mask) <= bytes || bytes <= EncodeClientFrame(f, mask))
  }

  lemma FirstByteIs(first: byte, op: Opcode)
    requires first / 16 % 8 == 0 && OpcodeOf(first % 16) == Some(op)
    ensures first == (if first >= 128 then 128 else 0) + Code(op)
  {
  }

  lemma LengthWritten(bytes: seq<byte>)
    requires |bytes| >= 2 && bytes[1] >= 128 && Length(bytes).Some?
    requires var (size, cursor) := Length(bytes).value;
             !(cursor == 4 && size < 126) && !(cursor == 10 && (bytes[2] >= 128 || size <= 65535))
    ensures var (size, cursor) := Length(bytes).value;
            && 2 <= cursor <= |bytes| && bytes[1..cursor] == LengthBytes(size) && 2 * size < Power256(8)
  {
    var (size, cursor) := Length(bytes).value;
    Power256Of2();
    assert Power256(8) >= Power256(2) * 2 by { PowerGrows(); }
    if cursor == 4 {
      BigWrites(bytes[2..4]);
      BigBelow(bytes[2..4]);
      assert bytes[1..4] == [bytes[1]] + bytes[2..4];
    } else if cursor == 10 {
      BigWrites(bytes[2..10]);
      BigBelow(bytes[2..10]);
      assert bytes[2..10][0] == bytes[2];
      assert bytes[1..10] == [bytes[1]] + bytes[2..10];
    } else {
      assert bytes[1..2] == [bytes[1]];
    }
    hide Big, ToBig, Power256;
  }

  lemma PowerGrows()
    ensures Power256(8) >= Power256(2) * 2
  {
    assert Power256(4) == 256 * (256 * Power256(2));
    assert Power256(6) == 256 * (256 * Power256(4));
    assert Power256(8) == 256 * (256 * Power256(6));
  }

  lemma HeaderWritten(bytes: seq<byte>)
    requires ReadHeader(bytes).Header?
    ensures var h := ReadHeader(bytes);
            && 2 <= h.cursor <= |bytes| && bytes[1..h.cursor] == LengthBytes(h.size) && 2 * h.size < Power256(8)
            && bytes[0] == (if h.final then 128 else 0) + Code(h.opcode)
            && (IsControl(h.opcode) ==> h.final && h.size <= 125)
  {
    LengthWritten(bytes);
    FirstByteIs(bytes[0], ReadHeader(bytes).opcode);
    hide LengthBytes, Length, Power256, OpcodeOf, Code, IsControl;
  }

  lemma WholeFrame(bytes: seq<byte>, cursor: nat, size: nat, first: byte, length: seq<byte>, mask: seq<byte>, data: seq<byte>)
    requires 2 <= cursor && cursor + 4 + size <= |bytes| && bytes[0] == first && bytes[1..cursor] == length
    requires bytes[cursor..cursor + 4] == mask && bytes[cursor + 4..cursor + 4 + size] == data
    ensures [first] + length + mask + data == bytes[..cursor + 4 + size]
  {
    var all := bytes[..cursor + 4 + size];
    assert all == [bytes[0]] + bytes[1..cursor] + bytes[cursor..cursor + 4] + bytes[cursor + 4..cursor + 4 + size];
  }

  lemma GotIsWritten(bytes: seq<byte>, max: nat) returns (mask: seq<byte>)
    requires ParseClientFrame(bytes, max).Got?
    ensures var p := ParseClientFrame(bytes, max);
            && BeginsWith(bytes, p.frame, mask) && |EncodeClientFrame(p.frame, mask)| == p.consumed && |p.frame.payload| <= max
  {
    hide ReadHeader, Unmask, LengthBytes, Code, IsControl, Power256;
    var h, p := ReadHeader(bytes), ParseClientFrame(bytes, max);
    HeaderWritten(bytes);
    var c, size := h.cursor, h.size;
    mask := bytes[c..c + 4];
    var data := bytes[c + 4..c + 4 + size];
    assert p.frame == Frame(h.final, h.opcode, Unmask(data, mask)) && p.consumed == c + 4 + size;
    hide ParseClientFrame;
    WrittenAs(bytes, p.frame, c, size, mask, data);
  }

  lemma WrittenAs(bytes: seq<byte>, f: Frame, c: nat, size: nat, mask: seq<byte>, data: seq<byte>)
    requires 2 <= c && c + 4 + size <= |bytes| && bytes[1..c] == LengthBytes(size) && 2 * size < Power256(8)
    requires mask == bytes[c..c + 4] && data == bytes[c + 4..c + 4 + size] && f.payload == Unmask(data, mask)
    requires bytes[0] == (if f.final then 128 else 0) + Code(f.opcode) && (IsControl(f.opcode) ==> f.final && size <= 125)
    ensures BeginsWith(bytes, f, mask) && |EncodeClientFrame(f, mask)| == c + 4 + size
  {
    assert Power256(8) == 256 * Power256(7);
    hide Unmask, LengthBytes, Code, IsControl, Power256;
    assert Sendable(f);
    hide EncodeClientFrame, Sendable;
    EncodedAs(f, mask, data, bytes[0]);
    WholeFrame(bytes, c, size, bytes[0], LengthBytes(size), mask, data);
  }

  lemma EncodedAs(f: Frame, mask: seq<byte>, data: seq<byte>, first: byte)
    requires |mask| == 4 && f.payload == Unmask(data, mask) && first == (if f.final then 128 else 0) + Code(f.opcode)
    ensures EncodeClientFrame(f, mask) == [first] + LengthBytes(|data|) + mask + data
  {
    hide LengthBytes, Code, Unmask;
    UnmaskTwice(data, mask);
  }

  /** FRAMES EXACTLY.  A frame is taken off the front of the bytes if and only if they begin with it as a client may
      write it, with some mask, and it is within the limit. */
  lemma TakesExactly(bytes: seq<byte>, max: nat, f: Frame, n: nat)
    ensures ParseClientFrame(bytes, max) == Got(f, n) <==>
            |f.payload| <= max && exists mask :: BeginsWith(bytes, f, mask) && n == |EncodeClientFrame(f, mask)|
  {
    if ParseClientFrame(bytes, max) == Got(f, n) {
      var mask := GotIsWritten(bytes, max);
    }
    if |f.payload| <= max {
      if mask :| BeginsWith(bytes, f, mask) && n == |EncodeClientFrame(f, mask)| {
        Reads(bytes, max, f, mask);
      }
    }
  }

  lemma Reads(bytes: seq<byte>, max: nat, f: Frame, mask: seq<byte>)
    requires BeginsWith(bytes, f, mask) && |f.payload| <= max
    ensures ParseClientFrame(bytes, max) == Got(f, |EncodeClientFrame(f, mask)|)
  {
    hide ParseClientFrame, Sendable;
    var e := EncodeClientFrame(f, mask);
    hide EncodeClientFrame;
    assert bytes == e + bytes[|e|..];
    FrameRoundTrip(f, mask, bytes[|e|..], max);
  }

  // ----- refusing and waiting -----

  lemma HeaderOfGot(bytes: seq<byte>, max: nat)
    requires ParseClientFrame(bytes, max).Got?
    ensures var h := ReadHeader(bytes); h.Header? && h.size == |ParseClientFrame(bytes, max).frame.payload|
  {
    hide ReadHeader;
  }

  /** Bytes with a whole header that may be a frame have that frame's header. */
  lemma HeaderOf(bytes: seq<byte>, f: Frame, mask: seq<byte>)
    requires MayBe(bytes, f, mask) && !ReadHeader(bytes).NeedMore?
    ensures ReadHeader(bytes).Header? && ReadHeader(bytes).size == |f.payload|
  {
    hide ReadHeader, ParseClientFrame, Sendable;
    var e := EncodeClientFrame(f, mask);
    hide EncodeClientFrame;
    if e <= bytes {
      Reads(bytes, |f.payload|, f, mask);
      HeaderOfGot(bytes, |f.payload|);
    } else {
      Reads(e, |f.payload|, f, mask);
      HeaderOfGot(e, |f.payload|);
      assert e == bytes + e[|bytes|..];
      HeaderAppend(bytes, e[|bytes|..]);
    }
  }

  /** Filling up with zeros shows a frame the bytes may be. */
  lemma Filled(bytes: seq<byte>) returns (f: Frame, mask: seq<byte>)
    requires ReadHeader(bytes).Header?
    ensures MayBe(bytes, f, mask) && |f.payload| == ReadHeader(bytes).size
    ensures |EncodeClientFrame(f, mask)| == ReadHeader(bytes).cursor + 4 + ReadHeader(bytes).size
  {
    var h := ReadHeader(bytes);
    var total := h.cursor + 4 + h.size;
    var zeros: seq<byte> := seq(total, _ => 0);
    var all := bytes + zeros;
    HeaderAppend(bytes, zeros);
    assert ParseClientFrame(all, h.size).Got? && ParseClientFrame(all, h.size).consumed == total by {
      hide ReadHeader;
    }
    f := ParseClientFrame(all, h.size).frame;
    mask := GotIsWritten(all, h.size);
    HeaderOfGot(all, h.size);
    var e := EncodeClientFrame(f, mask);
    hide ReadHeader, ParseClientFrame, EncodeClientFrame, Sendable;
    assert e == all[..total];
    assert |bytes| <= total ==> bytes == e[..|bytes|];
    assert |bytes| > total ==> e == bytes[..total];
  }

  /** REFUSED AND AWAITED.  Bytes are refused as invalid only if no frame can begin with them, and as too big only if
      a frame over the limit can; with ten bytes there, they are awaited only if a frame within the limit can. */
  lemma RefusesExactly(bytes: seq<byte>, max: nat)
    ensures ParseClientFrame(bytes, max) == Broken(Invalid) ==> forall f, mask :: !MayBe(bytes, f, mask)
    ensures ParseClientFrame(bytes, max) == Broken(TooBig) ==> exists f, mask :: MayBe(bytes, f, mask) && |f.payload| > max
    ensures ParseClientFrame(bytes, max) == Broken(TooBig) ==> forall f, mask :: MayBe(bytes, f, mask) ==> |f.payload| > max
    ensures ParseClientFrame(bytes, max).More? && |bytes| >= 10 ==>
              exists f, mask :: MayBe(bytes, f, mask) && |f.payload| <= max && |bytes| < |EncodeClientFrame(f, mask)|
  {
    var h := ReadHeader(bytes);
    assert |bytes| >= 10 ==> !h.NeedMore?;
    hide ReadHeader, MayBe, EncodeClientFrame;
    if h.Header? {
      var f, mask := Filled(bytes);
    }
    if !h.NeedMore? {
      forall f, mask | MayBe(bytes, f, mask) ensures h.Header? && h.size == |f.payload| {
        HeaderOf(bytes, f, mask);
      }
    }
  }
}
