/** The chunked transfer coding: what the server emits, and how section 7.1 of RFC 9112 reads it. */
module Chunked {
  import opened Text

  const LINE_END := "\r\n"

  /** `wire::serialize_chunk`: an empty chunk is not emitted at all. */
  function SerializeChunk(chunk: string): string {
    if chunk == "" then "" else Numeral(|chunk|, 16) + LINE_END + chunk + LINE_END
  }

  /** `wire::serialize_chunk_end`: the last chunk and the empty trailer section. */
  const CHUNK_END := "0\r\n\r\n"

  function Encode(chunks: seq<string>): string {
    if chunks == [] then "" else SerializeChunk(chunks[0]) + Encode(chunks[1..])
  }

  lemma {:induction false} EncodeAppend(chunks: seq<string>, last: string)
    ensures Encode(chunks + [last]) == Encode(chunks) + SerializeChunk(last)
  {
    if chunks == [] {
      assert chunks + [last] == [last];
    } else {
      assert (chunks + [last])[1..] == chunks[1..] + [last];
      EncodeAppend(chunks[1..], last);
    }
  }

  // ----- the receiver of RFC 9112, section 7.1 -----

  datatype Decoded = Body(body: string, rest: string) | Undecided

  function SkipHex(s: string): (rest: string)
    ensures |rest| <= |s|
  {
    if s != "" && DigitValue(s[0]) < 16 then SkipHex(s[1..]) else s
  }

  predicate StartsLine(s: string) {
    |s| >= 2 && s[..2] == LINE_END
  }

  /** One chunk at the front of the text. */
  datatype Piece = Last(rest: string) | Chunk(data: string, rest: string) | NoPiece

  function ReadPiece(s: string): (p: Piece)
    ensures p.Chunk? ==> |p.rest| < |s|
  {
    var after := SkipHex(s);
    var digits := s[..|s| - |after|];
    if digits == "" || !StartsLine(after) then NoPiece
    else
      var size, data := Value(digits, 16), after[2..];
      if size == 0 then
        if StartsLine(data) then Last(data[2..]) else NoPiece
      else if |data| < size || !StartsLine(data[size..]) then NoPiece
      else Chunk(data[..size], data[size + 2..])
  }

  /** Reads chunks until the one of size zero and the blank line after it.  `Undecided` covers both
      a body that is not finished and one that is malformed. */
  function Decode(s: string): Decoded
    decreases |s|
  {
    match ReadPiece(s)
    case NoPiece => Undecided
    case Last(rest) => Body("", rest)
    case Chunk(data, more) =>
      match Decode(more)
      case Undecided => Undecided
      case Body(body, rest) => Body(data + body, rest)
  }

  lemma {:induction false} SkipHexBefore(t: string, r: string)
    requires SkipHex(t) != "" || r == "" || DigitValue(r[0]) == 16
    ensures SkipHex(t + r) == SkipHex(t) + r
  {
    if t == "" {
      assert t + r == r;
    } else if DigitValue(t[0]) < 16 {
      assert (t + r)[1..] == t[1..] + r;
      SkipHexBefore(t[1..], r);
    }
  }

  lemma {:induction false} SkipsAllHex(s: string)
    requires AllDigits(s, 16)
    ensures SkipHex(s) == ""
  {
    if s != "" {
      assert forall i :: 0 <= i < |s[1..]| ==> s[1..][i] == s[i + 1];
      SkipsAllHex(s[1..]);
    }
  }

  /** The size line in front of some data. */
  lemma SizeLine(n: nat, data: string)
    ensures var s := Numeral(n, 16) + LINE_END + data;
            && SkipHex(s) == LINE_END + data
            && s[..|s| - |SkipHex(s)|] == Numeral(n, 16)
            && Value(s[..|s| - |SkipHex(s)|], 16) == n
            && StartsLine(SkipHex(s)) && SkipHex(s)[2..] == data
  {
    var digits, tail := Numeral(n, 16), LINE_END + data;
    NumeralReads(n, 16);
    SkipsAllHex(digits);
    SkipHexBefore(digits, tail);
    hide SkipHex, Numeral, Value;
    assert digits + LINE_END + data == digits + tail;
    assert (digits + tail)[..|digits|] == digits;
    assert "" + tail == tail;
    assert tail[..2] == LINE_END && tail[2..] == data;
  }

  lemma PieceOfChunk(chunk: string, more: string)
    requires chunk != ""
    ensures ReadPiece(SerializeChunk(chunk) + more) == Chunk(chunk, more)
  {
    var data := chunk + LINE_END + more;
    hide SkipHex, Value, Numeral;
    SizeLine(|chunk|, data);
    assert SerializeChunk(chunk) + more == Numeral(|chunk|, 16) + LINE_END + data;
    assert data[|chunk|..] == LINE_END + more;
    assert data[|chunk|..][..2] == LINE_END;
    assert data[|chunk| + 2..] == more && data[..|chunk|] == chunk;
  }

  lemma PieceOfEnd(rest: string)
    ensures ReadPiece(CHUNK_END + rest) == Last(rest)
  {
    var data := LINE_END + rest;
    SizeLine(0, data);
    assert Numeral(0, 16) == "0";
    hide SkipHex, Value, Numeral;
    assert CHUNK_END + rest == "0" + LINE_END + data;
    assert data[..2] == LINE_END && data[2..] == rest;
  }

  /** CHUNKED STREAM INVERSE.  For every sequence of producer chunks, empty ones included, the
      receiver gets exactly their concatenation and stops right after the terminal chunk. */
  lemma {:induction false} StreamDecodes(chunks: seq<string>, rest: string)
    ensures Decode(Encode(chunks) + CHUNK_END + rest) == Body(Flatten(chunks), rest)
  {
    hide ReadPiece;
    if chunks == [] {
      PieceOfEnd(rest);
      assert Encode(chunks) + CHUNK_END + rest == CHUNK_END + rest;
    } else {
      var more := Encode(chunks[1..]) + CHUNK_END + rest;
      StreamDecodes(chunks[1..], rest);
      assert Encode(chunks) + CHUNK_END + rest == SerializeChunk(chunks[0]) + more;
      if chunks[0] != "" {
        PieceOfChunk(chunks[0], more);
      } else {
        assert SerializeChunk(chunks[0]) + more == more;
        assert Flatten(chunks) == Flatten(chunks[1..]);
      }
    }
  }

  lemma PieceAppend(s: string, more: string)
    requires !ReadPiece(s).NoPiece?
    ensures ReadPiece(s + more) == ReadPiece(s).(rest := ReadPiece(s).rest + more)
  {
    var after := SkipHex(s);
    SkipHexBefore(s, more);
    hide SkipHex, Value;
    var digits := s[..|s| - |after|];
    CutAppend(s, more, |s| - |after|);
    LineAppend(after, more);
    hide StartsLine;
    var size, data := Value(digits, 16), after[2..];
    if size == 0 {
      LineAppend(data, more);
    } else {
      CutAppend(data, more, size);
      LineAppend(data[size..], more);
      CutAppend(data, more, size + 2);
    }
  }

  lemma CutAppend(s: string, more: string, k: nat)
    requires k <= |s|
    ensures (s + more)[..k] == s[..k] && (s + more)[k..] == s[k..] + more
  {
  }

  lemma LineAppend(s: string, more: string)
    requires StartsLine(s)
    ensures StartsLine(s + more) && |s| >= 2 && (s + more)[2..] == s[2..] + more
  {
    assert (s + more)[..2] == s[..2];
  }

  /** A finished body is not changed by what follows it. */
  lemma {:induction false} DecodeAppend(s: string, more: string)
    requires Decode(s).Body?
    ensures Decode(s + more) == Body(Decode(s).body, Decode(s).rest + more)
    decreases |s|
  {
    hide ReadPiece;
    PieceAppend(s, more);
    if ReadPiece(s).Chunk? {
      DecodeAppend(ReadPiece(s).rest, more);
    }
  }

  /** Short of the terminal chunk the receiver never takes the body for finished. */
  lemma UnfinishedStream(chunks: seq<string>, k: nat)
    requires k < |Encode(chunks) + CHUNK_END|
    ensures Decode((Encode(chunks) + CHUNK_END)[..k]) == Undecided
  {
    hide Encode, Decode, Flatten;
    var whole := Encode(chunks) + CHUNK_END;
    StreamDecodes(chunks, "");
    assert whole + "" == whole && whole[..k] + whole[k..] == whole;
    if Decode(whole[..k]).Body? {
      DecodeAppend(whole[..k], whole[k..]);
    }
  }
}
