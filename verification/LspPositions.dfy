/** Positions of the language server: UTF-8 byte offsets on its side, lines and UTF-16 code units on
    the editor's.  A text is a string with one char per byte. */
module LspPositions {
  import opened Text

  datatype Position = Position(line: nat, character: nat)

  /** Length of the encoded character that starts with byte `c`. */
  function Width(c: char): nat {
    if c < 0x80 as char then 1 else if c < 0xE0 as char then 2 else if c < 0xF0 as char then 3 else 4
  }

  function Units(c: char): nat {
    if Width(c) == 4 then 2 else 1
  }

  function Next(text: string, i: nat): (next: nat)
    requires i < |text|
    ensures i < next <= |text|
  {
    if Width(text[i]) <= |text| - i then i + Width(text[i]) else |text|
  }

  // ----- the two conversions -----

  function PositionFrom(text: string, i: nat, stop: nat, line: nat, column: nat): Position
    requires i <= |text| && stop <= |text|
    decreases |text| - i
  {
    if i >= stop then Position(line, column)
    else if text[i] == '\n' then PositionFrom(text, i + 1, stop, line + 1, 0)
    else PositionFrom(text, Next(text, i), stop, line, column + Units(text[i]))
  }

  function PositionAt(text: string, offset: nat): Position {
    PositionFrom(text, 0, if offset < |text| then offset else |text|, 0, 0)
  }

  function FindNewline(text: string, i: nat): (k: Option<nat>)
    requires i <= |text|
    ensures k.Some? ==> i <= k.value < |text| && text[k.value] == '\n' && '\n' !in text[i..k.value]
    ensures k.None? ==> '\n' !in text[i..]
    decreases |text| - i
  {
    if i == |text| then None
    else if text[i] == '\n' then Some(i)
    else FindNewline(text, i + 1)
  }

  /** The start of the n-th line after the one starting at i; None when the text ends first. */
  function LineStart(text: string, i: nat, n: nat): (start: Option<nat>)
    requires i <= |text|
    ensures start.Some? ==> i <= start.value <= |text|
    decreases n
  {
    if n == 0 then Some(i)
    else match FindNewline(text, i)
      case None => None
      case Some(k) => LineStart(text, k + 1, n - 1)
  }

  predicate EndsLine(c: char) {
    c == '\n' || c == '\r'
  }

  /** None stands for the error "position splits a surrogate pair". */
  function ColumnFrom(text: string, i: nat, column: nat, character: nat): (r: Option<nat>)
    requires i <= |text|
    ensures r.Some? ==> i <= r.value <= |text|
    decreases |text| - i
  {
    if i == |text| || EndsLine(text[i]) || column >= character then Some(i)
    else if column + Units(text[i]) > character then None
    else ColumnFrom(text, Next(text, i), column + Units(text[i]), character)
  }

  function OffsetOf(text: string, p: Position): (r: Option<nat>)
    ensures r.Some? ==> r.value <= |text|
  {
    match LineStart(text, 0, p.line)
    case None => Some(|text|)
    case Some(start) => ColumnFrom(text, start, 0, p.character)
  }

  // ----- reference notions, byte by byte -----

  predicate Continuation(c: char) {
    0x80 as char <= c < 0xC0 as char
  }

  /** text[i..] is a sequence of whole encoded characters. */
  ghost predicate Utf8(text: string, i: nat)
    requires i <= |text|
    decreases |text| - i
  {
    i == |text| ||
    var next := i + Width(text[i]);
    && !Continuation(text[i])
    && next <= |text|
    && (forall k :: i < k < next ==> Continuation(text[k]))
    && Utf8(text, next)
  }

  /** Walking by whole characters from i arrives at o. */
  ghost predicate Reaches(text: string, i: nat, o: nat)
    requires i <= |text|
    decreases |text| - i
  {
    i == o || (i < o && i < |text| && Reaches(text, Next(text, i), o))
  }

  ghost predicate Boundary(text: string, o: nat) {
    o <= |text| && Reaches(text, 0, o)
  }

  ghost function Newlines(text: string, i: nat, o: nat): nat
    requires o <= |text|
    decreases o - i
  {
    if i >= o then 0 else (if text[i] == '\n' then 1 else 0) + Newlines(text, i + 1, o)
  }

  /** Where the line that contains offset o begins. */
  ghost function LineBegin(text: string, o: nat): (b: nat)
    requires o <= |text|
    ensures b <= o
  {
    if o == 0 || text[o - 1] == '\n' then o else LineBegin(text, o - 1)
  }

  /** UTF-16 code units of the characters from i to o. */
  ghost function UnitsIn(text: string, i: nat, o: nat): nat
    requires i <= |text|
    decreases |text| - i
  {
    if i >= o || i == |text| then 0 else Units(text[i]) + UnitsIn(text, Next(text, i), o)
  }

  // ----- positions mean what the protocol says -----

  lemma {:induction false} NoNewlines(text: string, i: nat, j: nat, o: nat)
    requires i <= j <= o <= |text| && '\n' !in text[i..j]
    ensures Newlines(text, i, o) == Newlines(text, j, o)
    decreases j - i
  {
    if i < j {
      assert text[i] in text[i..j];
      assert text[i + 1..j] == text[i..j][1..];
      NoNewlines(text, i + 1, j, o);
    }
  }

  lemma {:induction false} CountNone(text: string, i: nat, o: nat)
    requires i <= o <= |text|
    ensures Newlines(text, i, o) == 0 <==> '\n' !in text[i..o]
    decreases o - i
  {
    if i < o {
      CountNone(text, i + 1, o);
      assert text[i..o] == [text[i]] + text[i + 1..o];
    }
  }

  lemma {:induction false} LineBeginIs(text: string, b: nat, o: nat)
    requires b <= o <= |text|
    requires b == 0 || text[b - 1] == '\n'
    requires '\n' !in text[b..o]
    ensures LineBegin(text, o) == b
    decreases o
  {
    if b < o {
      assert text[o - 1] in text[b..o];
      assert forall c :: c in text[b..o - 1] ==> c in text[b..o];
      LineBeginIs(text, b, o - 1);
    }
  }

  lemma {:induction false} LineBeginClean(text: string, o: nat)
    requires o <= |text|
    ensures var b := LineBegin(text, o);
            (b == 0 || text[b - 1] == '\n') && '\n' !in text[b..o]
  {
    if o > 0 && text[o - 1] != '\n' {
      LineBeginClean(text, o - 1);
      var b := LineBegin(text, o);
      assert text[b..o] == text[b..o - 1] + [text[o - 1]];
    }
  }

  /** The bytes of one whole character hold no newline and no carriage return, unless it is one. */
  lemma CharacterBytes(text: string, i: nat)
    requires i < |text| && Utf8(text, i)
    ensures Next(text, i) == i + Width(text[i]) && Utf8(text, Next(text, i))
    ensures forall k :: i < k < Next(text, i) ==> !EndsLine(text[k])
    ensures EndsLine(text[i]) ==> Next(text, i) == i + 1
  {
  }

  /** The loop of position counts the newlines before the offset, and the code units since. */
  lemma {:induction false} PositionMeans(text: string, i: nat, o: nat, line: nat, column: nat)
    requires i <= o <= |text| && Utf8(text, i) && Reaches(text, i, o)
    ensures PositionFrom(text, i, o, line, column)
         == Position(line + Newlines(text, i, o),
                     if Newlines(text, i, o) == 0 then column + UnitsIn(text, i, o)
                     else UnitsIn(text, LineBegin(text, o), o))
    decreases |text| - i
  {
    if i < o {
      CharacterBytes(text, i);
      var next := Next(text, i);
      ReachesAtMost(text, next, o);
      if text[i] == '\n' {
        PositionMeans(text, next, o, line + 1, 0);
        if Newlines(text, next, o) == 0 {
          CountNone(text, next, o);
          LineBeginIs(text, next, o);
        }
      } else {
        PositionMeans(text, next, o, line, column + Units(text[i]));
        NoNewlines(text, i, next, o);
      }
    }
  }

  lemma ReachesAtMost(text: string, i: nat, o: nat)
    requires i <= |text| && Reaches(text, i, o)
    ensures i <= o <= |text|
    decreases |text| - i
  {
  }

  lemma {:induction false} NewlineByThen(text: string, i: nat, at: nat)
    requires i <= at < |text| && text[at] == '\n'
    ensures FindNewline(text, i).Some? && FindNewline(text, i).value <= at
    decreases |text| - i
  {
    if text[i] != '\n' {
      NewlineByThen(text, i + 1, at);
    }
  }

  /** Skipping that many newlines finds the line's beginning. */
  lemma {:induction false} LineStartMeans(text: string, i: nat, o: nat, n: nat)
    requires i <= o <= |text| && n == Newlines(text, i, o)
    ensures LineStart(text, i, n) == Some(if n == 0 then i else LineBegin(text, o))
    decreases o - i
  {
    CountNone(text, i, o);
    if n > 0 {
      var at :| i <= at < o && text[at] == '\n';
      NewlineByThen(text, i, at);
      var k := FindNewline(text, i).value;
      NoNewlines(text, i, k, o);
      var next := k + 1;
      assert Newlines(text, next, o) == n - 1;
      hide Newlines, FindNewline;
      LineStartMeans(text, next, o, n - 1);
      if n == 1 {
        CountNone(text, next, o);
        LineBeginIs(text, next, o);
      }
      hide LineBegin;
    }
  }

  /** A newline's successor is a character boundary. */
  lemma {:induction false} LinesAreBoundaries(text: string, i: nat, m: nat, o: nat)
    requires i <= m <= o <= |text| && Utf8(text, i) && Reaches(text, i, o)
    requires m == i || text[m - 1] == '\n'
    ensures Reaches(text, i, m) && Reaches(text, m, o) && Utf8(text, m)
    decreases |text| - i
  {
    if i < m {
      CharacterBytes(text, i);
      LinesAreBoundaries(text, Next(text, i), m, o);
    }
  }

  /** The column loop arrives at o exactly when no carriage return stops it before. */
  lemma {:induction false} ColumnFinds(text: string, i: nat, o: nat, column: nat, character: nat)
    requires i <= o <= |text| && Utf8(text, i) && Reaches(text, i, o) && '\n' !in text[i..o]
    requires character == column + UnitsIn(text, i, o)
    ensures ColumnFrom(text, i, column, character) == Some(o) <==> '\r' !in text[i..o]
    decreases |text| - i
  {
    if i < o {
      assert text[i] in text[i..o];
      if text[i] == '\r' {
        return;
      }
      CharacterBytes(text, i);
      var next := Next(text, i);
      ReachesAtMost(text, next, o);
      assert text[i..o] == text[i..next] + text[next..o];
      assert '\r' !in text[i..next];
      hide Reaches, Utf8;
      ColumnFinds(text, next, o, column + Units(text[i]), character);
    }
  }

  /** ROUND TRIP.  For every character boundary of every UTF-8 text, converting to an editor
      position and back gives the same offset if and only if its line has no carriage return
      before it. */
  lemma RoundTrip(text: string, o: nat)
    requires Utf8(text, 0) && Boundary(text, o)
    ensures OffsetOf(text, PositionAt(text, o)) == Some(o) <==> '\r' !in text[LineBegin(text, o)..o]
    ensures PositionAt(text, o)
         == Position(Newlines(text, 0, o), UnitsIn(text, LineBegin(text, o), o))
    ensures OffsetOf(text, PositionAt(text, o)).Some?
  {
    var b := LineBegin(text, o);
    PositionMeans(text, 0, o, 0, 0);
    LineBeginClean(text, o);
    CountNone(text, 0, o);
    if Newlines(text, 0, o) == 0 {
      LineBeginIs(text, 0, o);
    }
    LineStartMeans(text, 0, o, Newlines(text, 0, o));
    LinesAreBoundaries(text, 0, b, o);
    hide Utf8, Reaches, Newlines, LineBegin, UnitsIn, PositionFrom, ColumnFrom, LineStart;
    var character := UnitsIn(text, b, o);
    ColumnFinds(text, b, o, 0, character);
    ColumnNeverSplits(text, b, o, 0, character);
  }

  /** The input for the other half: behind a lone carriage return the offset does not come back. */
  lemma CarriageReturnLosesOffset()
    ensures var text := "a\rb";
            && Utf8(text, 0) && Boundary(text, 2)
            && PositionAt(text, 2) == Position(0, 2) && OffsetOf(text, Position(0, 2)) == Some(1)
  {
    var text := "a\rb";
    assert Next(text, 0) == 1 && Next(text, 1) == 2 && Next(text, 2) == 3;
    assert Utf8(text, 3) && Utf8(text, 2) && Utf8(text, 1);
    assert Reaches(text, 2, 2) && Reaches(text, 1, 2) && Reaches(text, 0, 2);
    assert PositionFrom(text, 2, 2, 0, 2) == Position(0, 2);
    assert PositionFrom(text, 1, 2, 0, 1) == Position(0, 2);
    assert ColumnFrom(text, 1, 1, 2) == Some(1);
  }

  lemma {:induction false} ColumnNeverSplits(text: string, i: nat, o: nat, column: nat, character: nat)
    requires i <= o <= |text| && Reaches(text, i, o) && character == column + UnitsIn(text, i, o)
    ensures ColumnFrom(text, i, column, character).Some?
    decreases |text| - i
  {
    if i < o && !EndsLine(text[i]) {
      ReachesAtMost(text, Next(text, i), o);
      ColumnNeverSplits(text, Next(text, i), o, column + Units(text[i]), character);
    }
  }

  // ----- what any position means -----

  /** `character` code units into the line from i falls inside a two-unit character at b. */
  ghost predicate Splits(text: string, i: nat, character: nat, b: nat)
    requires i <= |text|
  {
    && i <= b < |text| && Reaches(text, i, b) && (forall k :: i <= k <= b ==> !EndsLine(text[k]))
    && Units(text[b]) == 2 && UnitsIn(text, i, b) + 1 == character
  }

  ghost predicate SplitsPair(text: string, i: nat, character: nat)
    requires i <= |text|
  {
    exists b :: Splits(text, i, character, b)
  }

  lemma SplitsLater(text: string, i: nat, character: nat)
    requires i < |text| && Utf8(text, i) && !EndsLine(text[i]) && Units(text[i]) <= character
    ensures SplitsPair(text, i, character) <==> SplitsPair(text, Next(text, i), character - Units(text[i]))
  {
    CharacterBytes(text, i);
    var next, rest := Next(text, i), character - Units(text[i]);
    if SplitsPair(text, next, rest) {
      var b :| Splits(text, next, rest, b);
      ReachesAtMost(text, next, b);
      assert Splits(text, i, character, b);
    }
    if SplitsPair(text, i, character) {
      var b :| Splits(text, i, character, b);
      assert b != i;
      ReachesAtMost(text, next, b);
      assert Splits(text, next, rest, b);
    }
  }

  /** The error is raised exactly for positions inside a surrogate pair. */
  lemma {:induction false} ColumnFails(text: string, i: nat, column: nat, character: nat)
    requires i <= |text| && Utf8(text, i) && column <= character
    ensures ColumnFrom(text, i, column, character).None? <==> SplitsPair(text, i, character - column)
    decreases |text| - i
  {
    if i == |text| || EndsLine(text[i]) || column >= character {
      var rest := character - column;
      assert forall b {:trigger Splits(text, i, rest, b)} :: !Splits(text, i, rest, b);
    } else if column + Units(text[i]) > character {
      assert Splits(text, i, character - column, i);
    } else {
      CharacterBytes(text, i);
      SplitsLater(text, i, character - column);
      ColumnFails(text, Next(text, i), column + Units(text[i]), character);
    }
  }

  /** Otherwise the loop stops on a boundary of the line, at the column asked for or at its end. */
  lemma {:induction false} ColumnLands(text: string, i: nat, column: nat, character: nat)
    requires i <= |text| && Utf8(text, i) && column <= character
    requires ColumnFrom(text, i, column, character).Some?
    ensures var r := ColumnFrom(text, i, column, character).value;
            && Reaches(text, i, r)
            && (forall k :: i <= k < r ==> !EndsLine(text[k]))
            && column + UnitsIn(text, i, r) <= character
            && (column + UnitsIn(text, i, r) == character || r == |text| || EndsLine(text[r]))
    decreases |text| - i
  {
    if i < |text| && !EndsLine(text[i]) && column < character {
      CharacterBytes(text, i);
      ColumnLands(text, Next(text, i), column + Units(text[i]), character);
    }
  }

  lemma {:induction false} ReachesOn(text: string, i: nat, m: nat, o: nat)
    requires i <= m <= |text| && Reaches(text, i, m) && Reaches(text, m, o)
    ensures Reaches(text, i, o)
    decreases |text| - i
  {
    if i < m {
      ReachesAtMost(text, Next(text, i), m);
      ReachesAtMost(text, m, o);
      ReachesOn(text, Next(text, i), m, o);
    }
  }

  /** A line start found after n newlines is a boundary, with n newlines before it. */
  lemma {:induction false} LineStartLands(text: string, i: nat, n: nat, s: nat)
    requires i <= |text| && Utf8(text, i) && LineStart(text, i, n) == Some(s)
    ensures i <= s <= |text| && Reaches(text, i, s) && Utf8(text, s) && Newlines(text, i, s) == n
    ensures s == i || text[s - 1] == '\n'
    decreases n
  {
    if n > 0 {
      var at := FindNewline(text, i).value;
      var k := at + 1;
      assert LineStart(text, k, n - 1) == Some(s);
      hide LineStart, FindNewline;
      WalkAll(text, i);
      LinesAreBoundaries(text, i, k, |text|);
      hide Utf8, Reaches;
      LineStartLands(text, k, n - 1, s);
      ReachesOn(text, i, k, s);
      NoNewlines(text, i, at, s);
    }
  }

  lemma {:induction false} LineMissing(text: string, i: nat, n: nat)
    requires i <= |text|
    ensures LineStart(text, i, n).None? <==> Newlines(text, i, |text|) < n
    decreases n
  {
    CountNone(text, i, |text|);
    assert text[i..] == text[i..|text|];
    if n > 0 && FindNewline(text, i).Some? {
      var k := FindNewline(text, i).value;
      LineMissing(text, k + 1, n - 1);
      NoNewlines(text, i, k, |text|);
    }
  }

  lemma {:induction false} WalkAll(text: string, i: nat)
    requires i <= |text| && Utf8(text, i)
    ensures Reaches(text, i, |text|)
    decreases |text| - i
  {
    if i < |text| {
      CharacterBytes(text, i);
      WalkAll(text, Next(text, i));
    }
  }

  /** `r` is the offset of `character` on the line that begins at `start`: an error exactly inside a
      surrogate pair, otherwise a boundary at that column or, past the line's end, at that end. */
  ghost predicate Lands(text: string, start: nat, line: nat, character: nat, r: Option<nat>)
    requires start <= |text|
  {
    && (r.None? <==> SplitsPair(text, start, character))
    && (r.Some? ==>
          && Boundary(text, r.value)
          && PositionAt(text, r.value) == Position(line, UnitsIn(text, start, r.value))
          && UnitsIn(text, start, r.value) <= character
          && (UnitsIn(text, start, r.value) == character || r.value == |text| || EndsLine(text[r.value])))
  }

  ghost predicate BeginsLine(text: string, start: nat, line: nat) {
    start <= |text| && (start == 0 || text[start - 1] == '\n') && Newlines(text, 0, start) == line
  }

  /** EVERY POSITION of the editor, in range or not: a missing line means the end of the text; on an
      existing line the answer lands where the protocol says. */
  lemma OffsetMeans(text: string, p: Position)
    requires Utf8(text, 0)
    ensures p.line > Newlines(text, 0, |text|) ==> OffsetOf(text, p) == Some(|text|)
    ensures p.line <= Newlines(text, 0, |text|) ==>
              exists start :: BeginsLine(text, start, p.line) && Lands(text, start, p.line, p.character, OffsetOf(text, p))
  {
    LineMissing(text, 0, p.line);
    if p.line <= Newlines(text, 0, |text|) {
      var start := LineStart(text, 0, p.line).value;
      LineStartLands(text, 0, p.line, start);
      assert BeginsLine(text, start, p.line);
      LandsOnLine(text, start, p.line, p.character);
      assert Lands(text, start, p.line, p.character, OffsetOf(text, p));
    }
  }

  lemma LandsOnLine(text: string, start: nat, line: nat, character: nat)
    requires Utf8(text, 0) && BeginsLine(text, start, line) && Reaches(text, 0, start) && Utf8(text, start)
    ensures Lands(text, start, line, character, ColumnFrom(text, start, 0, character))
  {
    ColumnFails(text, start, 0, character);
    var r := ColumnFrom(text, start, 0, character);
    if r.Some? {
      ColumnLands(text, start, 0, character);
      ReachesOn(text, 0, start, r.value);
      hide Utf8, Reaches, ColumnFrom, SplitsPair;
      RoundTrip(text, r.value);
      assert '\n' !in text[start..r.value];
      LineBeginIs(text, start, r.value);
      NewlinesSplit(text, 0, start, r.value);
      CountNone(text, start, r.value);
    }
  }

  lemma {:induction false} NewlinesSplit(text: string, i: nat, m: nat, o: nat)
    requires i <= m <= o <= |text|
    ensures Newlines(text, i, o) == Newlines(text, i, m) + Newlines(text, m, o)
    decreases m - i
  {
    if i < m {
      NewlinesSplit(text, i + 1, m, o);
    }
  }
}
