/** Editor positions in terms of code points, as the language server protocol defines them (its section on positions):
    the line counts the newlines before, the character the UTF-16 code units since the last of them. */
module LspCodePoints {
  import opened Text
  import opened CodePoints
  import opened LspPositions
  import opened LspDocument

  const NEWLINE := 10
  const RETURN := 13

  function LineOf(codes: seq<nat>): nat {
    if codes == [] then 0
    else LineOf(codes[..|codes| - 1]) + if codes[|codes| - 1] == NEWLINE then 1 else 0
  }

  function ColumnOf(codes: seq<nat>): nat {
    if codes == [] || codes[|codes| - 1] == NEWLINE then 0
    else ColumnOf(codes[..|codes| - 1]) + Utf16Units(codes[|codes| - 1])
  }

  // ----- one character -----

  /** The first byte of a character tells its length and its code units. */
  lemma CharacterMeans(code: nat)
    requires Scalar(code)
    ensures var b := Bytes(code);
            && Width(b[0]) == |b| && Units(b[0]) == Utf16Units(code) && !Continuation(b[0])
            && (forall k :: 1 <= k < |b| ==> Continuation(b[k])) && (b[0] == '\n' <==> code == NEWLINE)
  {
  }

  lemma CharacterAt(text: string, i: nat, code: nat, rest: string)
    requires Scalar(code) && i <= |text| && text[i..] == Bytes(code) + rest
    ensures var b := Bytes(code);
            && i < |text| && i + |b| <= |text| && text[i] == b[0] && Next(text, i) == i + |b| && text[i + |b|..] == rest
            && (forall k :: i < k < i + |b| ==> text[k] == b[k - i])
  {
    var b := Bytes(code);
    CharacterMeans(code);
    hide Bytes, Width;
    assert forall k :: i <= k < |text| ==> text[k] == text[i..][k - i];
    assert text[i + |b|..] == text[i..][|b|..];
  }

  // ----- whole texts -----

  lemma {:induction false} EncodedIsUtf8(text: string, i: nat, codes: seq<nat>)
    requires i <= |text| && Scalars(codes) && text[i..] == Encoded(codes)
    ensures Utf8(text, i)
    decreases |codes|
  {
    if codes != [] {
      CharacterMeans(codes[0]);
      CharacterAt(text, i, codes[0], Encoded(codes[1..]));
      var next := i + |Bytes(codes[0])|;
      hide Bytes, Width, Continuation;
      EncodedIsUtf8(text, next, codes[1..]);
    }
  }

  lemma {:induction false} EncodedReaches(text: string, i: nat, codes: seq<nat>, rest: string, o: nat)
    requires i <= |text| && Scalars(codes) && text[i..] == Encoded(codes) + rest && o == i + |Encoded(codes)|
    ensures Reaches(text, i, o)
    decreases |codes|
  {
    if codes != [] {
      var b, more := Bytes(codes[0]), Encoded(codes[1..]) + rest;
      assert text[i..] == b + more;
      CharacterAt(text, i, codes[0], more);
      hide Bytes, Next;
      EncodedReaches(text, i + |b|, codes[1..], rest, o);
    }
  }

  /** The walk over the characters of a text. */
  function Walk(codes: seq<nat>, line: nat, column: nat): Position
    decreases |codes|
  {
    if codes == [] then Position(line, column)
    else if codes[0] == NEWLINE then Walk(codes[1..], line + 1, 0)
    else Walk(codes[1..], line, column + Utf16Units(codes[0]))
  }

  lemma {:induction false} PositionWalks(text: string, i: nat, codes: seq<nat>, rest: string, o: nat, line: nat, column: nat)
    requires i <= |text| && Scalars(codes) && text[i..] == Encoded(codes) + rest && o == i + |Encoded(codes)|
    ensures o <= |text| && PositionFrom(text, i, o, line, column) == Walk(codes, line, column)
    decreases |codes|
  {
    assert |text[i..]| == |text| - i;
    if codes != [] {
      var b, more := Bytes(codes[0]), Encoded(codes[1..]) + rest;
      assert text[i..] == b + more;
      CharacterAt(text, i, codes[0], more);
      CharacterMeans(codes[0]);
      assert codes[0] == NEWLINE ==> |b| == 1 by { OneByte(); }
      hide Bytes, Next, Width, Continuation;
      PositionWalks(text, i + |b|, codes[1..], rest, o, if codes[0] == NEWLINE then line + 1 else line,
                    if codes[0] == NEWLINE then 0 else column + Utf16Units(codes[0]));
    }
  }

  lemma OneByte()
    ensures |Bytes(NEWLINE)| == 1
  {
  }

  lemma {:induction false} WalkLast(codes: seq<nat>, c: nat, line: nat, column: nat)
    ensures var p := Walk(codes, line, column);
            Walk(codes + [c], line, column) ==
            if c == NEWLINE then Position(p.line + 1, 0) else Position(p.line, p.character + Utf16Units(c))
    decreases |codes|
  {
    if codes == [] {
      assert codes + [c] == [c] && [c][1..] == [];
    } else {
      assert (codes + [c])[0] == codes[0] && (codes + [c])[1..] == codes[1..] + [c];
      WalkLast(codes[1..], c, if codes[0] == NEWLINE then line + 1 else line,
               if codes[0] == NEWLINE then 0 else column + Utf16Units(codes[0]));
    }
  }

  lemma {:induction false} WalkMeans(codes: seq<nat>)
    ensures Walk(codes, 0, 0) == Position(LineOf(codes), ColumnOf(codes))
    decreases |codes|
  {
    if codes != [] {
      var front, c := codes[..|codes| - 1], codes[|codes| - 1];
      assert codes == front + [c];
      WalkMeans(front);
      WalkLast(front, c, 0, 0);
    }
  }

  /** POSITIONS OF CODE POINTS.  In a text of any code points, the position between two of them is the number of newlines
      before it and the number of UTF-16 code units since the last one. */
  lemma PositionOfCodes(front: seq<nat>, back: seq<nat>)
    requires Scalars(front) && Scalars(back)
    ensures Scalars(front + back)
    ensures var text, o := Encoded(front + back), |Encoded(front)|;
            && Utf8(text, 0) && Boundary(text, o)
            && PositionAt(text, o) == Position(LineOf(front), ColumnOf(front))
  {
    EncodedJoin(front, back);
    var text, o := Encoded(front + back), |Encoded(front)|;
    assert text[0..] == text;
    EncodedIsUtf8(text, 0, front + back);
    EncodedReaches(text, 0, front, Encoded(back), o);
    PositionWalks(text, 0, front, Encoded(back), o, 0, 0);
    WalkMeans(front);
    hide Encoded, Utf8, Reaches, PositionFrom, Walk, LineOf, ColumnOf;
  }

  // ----- edits of code points -----

  /** No carriage return since the last newline. */
  predicate CleanLine(codes: seq<nat>) {
    codes == [] || codes[|codes| - 1] == NEWLINE || (codes[|codes| - 1] != RETURN && CleanLine(codes[..|codes| - 1]))
  }

  lemma CharacterEnds(code: nat)
    requires Scalar(code)
    ensures code == NEWLINE ==> Bytes(code) == "\n"
    ensures code != NEWLINE ==> '\n' !in Bytes(code)
    ensures '\r' in Bytes(code) <==> code == RETURN
  {
    assert Bytes(RETURN)[0] == '\r';
  }

  lemma {:induction false} LineBeginSkips(text: string, a: nat, o: nat)
    requires a <= o <= |text| && '\n' !in text[a..o]
    ensures LineBegin(text, o) == LineBegin(text, a)
    decreases o - a
  {
    if a < o {
      assert text[a..o][o - 1 - a] == text[o - 1];
      assert text[a..o - 1] == text[a..o][..o - 1 - a];
      LineBeginSkips(text, a, o - 1);
    }
  }

  lemma LastOf(front: seq<nat>)
    requires Scalars(front) && front != []
    ensures var codes, c := front[..|front| - 1], front[|front| - 1];
            Scalars(codes) && Scalar(c) && Encoded(front) == Encoded(codes) + Bytes(c)
  {
    var codes, c := front[..|front| - 1], front[|front| - 1];
    assert front == codes + [c] && [c][1..] == [];
    EncodedJoin(codes, [c]);
    hide Bytes, Scalar;
    assert Encoded([c]) == Bytes(c) + Encoded([]) == Bytes(c);
  }

  lemma EndsWith(text: string, front: string, last: string, a: nat, o: nat)
    requires a == |front| && o == |front + last| <= |text| && text[..o] == front + last
    ensures text[..a] == front && text[a..o] == last
  {
    assert text[..a] == text[..o][..a] && text[a..o] == text[..o][a..];
  }

  lemma LineGrows(text: string, a: nat, o: nat, last: string)
    requires a <= o <= |text| && text[a..o] == last
    ensures last == "\n" ==> '\r' !in text[LineBegin(text, o)..o]
    ensures '\n' !in last ==>
              ('\r' in text[LineBegin(text, o)..o] <==> '\r' in text[LineBegin(text, a)..a] || '\r' in last)
  {
    if last == "\n" {
      assert text[a..o][0] == text[o - 1];
    } else if '\n' !in last {
      LineBeginSkips(text, a, o);
      var b := LineBegin(text, a);
      assert text[b..o] == text[b..a] + last;
    }
  }

  lemma {:induction false} CleanMeans(text: string, front: seq<nat>, o: nat)
    requires Scalars(front) && o == |Encoded(front)| <= |text| && text[..o] == Encoded(front)
    ensures CleanLine(front) <==> '\r' !in text[LineBegin(text, o)..o]
    decreases |front|
  {
    if front != [] {
      hide Bytes, Encoded, Scalar, Scalars;
      LastOf(front);
      var codes, c := front[..|front| - 1], front[|front| - 1];
      var a := |Encoded(codes)|;
      EndsWith(text, Encoded(codes), Bytes(c), a, o);
      CharacterEnds(c);
      LineGrows(text, a, o, Bytes(c));
      hide LineBegin;
      CleanMeans(text, codes, a);
    }
  }

  /** The position between two code points leads back there if and only if no carriage return stands earlier on its line. */
  lemma OffsetOfCodes(front: seq<nat>, back: seq<nat>)
    requires Scalars(front) && Scalars(back)
    ensures OffsetOf(Encoded(front + back), Position(LineOf(front), ColumnOf(front))) == Some(|Encoded(front)|)
            <==> CleanLine(front)
  {
    var text, o := Encoded(front + back), |Encoded(front)|;
    PositionOfCodes(front, back);
    EncodedJoin(front, back);
    hide Encoded, LineOf, ColumnOf, Utf8, Boundary, PositionAt, OffsetOf, CleanLine;
    assert text[..o] == Encoded(front);
    CleanMeans(text, front, o);
    RoundTrip(text, o);
  }

  lemma ReplacesMiddle(before: string, gone: string, after: string, start: Position, end: Position, added: string)
    requires OffsetOf(before + gone + after, start) == Some(|before|)
    requires OffsetOf(before + gone + after, end) == Some(|before + gone|)
    ensures Apply(before + gone + after, Ranged(start, end, added)) == Some(before + added + after)
  {
    hide OffsetOf;
    var text := before + gone + after;
    assert text[..|before|] == before && text[|before + gone|..] == after;
  }

  lemma ThreeParts(a: seq<nat>, b: seq<nat>, c: seq<nat>)
    requires Scalars(a) && Scalars(b) && Scalars(c)
    ensures Scalars(a + b) && Encoded(a + b) == Encoded(a) + Encoded(b)
    ensures Scalars(a + b + c) && Encoded(a + b + c) == Encoded(a) + Encoded(b) + Encoded(c)
  {
    EncodedJoin(a, b);
    EncodedJoin(a + b, c);
    hide Encoded, Scalar;
  }

  lemma Regroup(a: seq<nat>, b: seq<nat>, c: seq<nat>)
    ensures a + (b + c) == a + b + c
  {
  }

  lemma EndsOfRange(front: seq<nat>, gone: seq<nat>, back: seq<nat>)
    requires Scalars(front) && Scalars(gone) && Scalars(back) && Scalars(front + gone) && Scalars(front + gone + back)
    requires CleanLine(front) && CleanLine(front + gone)
    ensures OffsetOf(Encoded(front + gone + back), Position(LineOf(front), ColumnOf(front))) == Some(|Encoded(front)|)
    ensures OffsetOf(Encoded(front + gone + back), Position(LineOf(front + gone), ColumnOf(front + gone)))
         == Some(|Encoded(front + gone)|)
  {
    EncodedJoin(gone, back);
    hide *;
    Regroup(front, gone, back);
    OffsetOfCodes(front, gone + back);
    OffsetOfCodes(front + gone, back);
  }

  /** EDITS OF CODE POINTS.  An editor that replaces some code points by others, and reports the range by lines and
      UTF-16 columns, finds its own new text in the server's document, unless a carriage return stands earlier on
      the line of either end. */
  lemma EditOfCodes(front: seq<nat>, gone: seq<nat>, back: seq<nat>, added: seq<nat>)
    requires Scalars(front) && Scalars(gone) && Scalars(back) && Scalars(added)
    requires CleanLine(front) && CleanLine(front + gone)
    ensures Scalars(front + gone + back) && Scalars(front + added + back)
    ensures var start, end := Position(LineOf(front), ColumnOf(front)), Position(LineOf(front + gone), ColumnOf(front + gone));
            Apply(Encoded(front + gone + back), Ranged(start, end, Encoded(added))) == Some(Encoded(front + added + back))
  {
    hide *;
    ThreeParts(front, gone, back);
    ThreeParts(front, added, back);
    EndsOfRange(front, gone, back);
    ReplacesMiddle(Encoded(front), Encoded(gone), Encoded(back), Position(LineOf(front), ColumnOf(front)),
                   Position(LineOf(front + gone), ColumnOf(front + gone)), Encoded(added));
  }
}
