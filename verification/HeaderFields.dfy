/** Header fields as the standards describe them, character by character (sections 5.1 and 5.6.2 of RFC 9110),
    and the proof that the string functions both request parsers rest on compute just that. */
module HeaderFields {
  import opened Text
  import opened Framing

  // ----- the standards' view -----

  predicate Spaces(s: string) {
    forall i :: 0 <= i < |s| ==> s[i] == ' ' || s[i] == '\t'
  }

  predicate Edgeless(s: string) {
    s != "" ==> s[0] !in " \t" && s[|s| - 1] !in " \t"
  }

  predicate TokenChar(c: char) {
    || 'a' <= c <= 'z' || 'A' <= c <= 'Z' || '0' <= c <= '9' || c == '!' || '#' <= c <= '\''
    || c == '*' || c == '+' || c == '-' || c == '.' || '^' <= c <= '`' || c == '|' || c == '~'
  }

  predicate Token(s: string) {
    s != "" && forall i :: 0 <= i < |s| ==> TokenChar(s[i])
  }

  /** Visible characters, blanks and bytes outside ASCII. */
  predicate FieldText(s: string) {
    forall i :: 0 <= i < |s| ==> ' ' <= s[i] <= '~' || s[i] == '\t' || s[i] as int >= 128
  }

  function Fold(c: char): char {
    if 'A' <= c <= 'Z' then (c as int + 32) as char else c
  }

  function Folded(s: string): (t: string)
    ensures |t| == |s| && forall i :: 0 <= i < |s| ==> t[i] == Fold(s[i])
  {
    seq(|s|, i requires 0 <= i < |s| => Fold(s[i]))
  }

  /** This name, which is in small letters, however it is spelt. */
  predicate Named(s: string, name: string) {
    Folded(s) == name
  }

  /** A decimal number below two to the sixty-fourth. */
  predicate SizeText(s: string) {
    s != "" && (forall i :: 0 <= i < |s| ==> s[i] in "0123456789") && Value(s, 10) < 0x1_0000_0000_0000_0000
  }

  // ----- the code's view is the same -----

  lemma {:induction false} LowerFolds(s: string)
    ensures Lower(s) == Folded(s)
  {
    if s != "" {
      LowerFolds(s[1..]);
      assert Folded(s) == [Fold(s[0])] + Folded(s[1..]);
    }
  }

  lemma NameIsToken(s: string)
    ensures ValidName(s) <==> Token(s)
  {
    forall i | 0 <= i < |s|
      ensures TokenChar(s[i]) <==> 0x20 as char < s[i] < 0x7f as char && s[i] !in "()<>@,;:\\\"/[]?={} \t"
    {
      CharIsToken(s[i]);
    }
    hide TokenChar;
  }

  lemma CharIsToken(c: char)
    ensures TokenChar(c) <==> 0x20 as char < c < 0x7f as char && c !in "()<>@,;:\\\"/[]?={} \t"
  {
  }

  lemma ValueIsText(s: string)
    ensures ValidValue(s) <==> FieldText(s)
  {
    forall i | 0 <= i < |s|
      ensures (s[i] != '\r' && s[i] != '\n' && s[i] != 0x7f as char && (s[i] >= 0x20 as char || s[i] == '\t'))
              <==> (' ' <= s[i] <= '~' || s[i] == '\t' || s[i] as int >= 128)
    {
    }
  }

  lemma SizeReads(s: string)
    ensures ParseSize(s) == if SizeText(s) then Some(Value(s, 10)) else None
  {
    hide Value;
    assert forall i :: 0 <= i < |s| ==> (s[i] in "0123456789" <==> '0' <= s[i] <= '9');
  }

  lemma {:induction false} LeftGone(before: string, s: string)
    requires Spaces(before) && (s == "" || s[0] !in " \t")
    ensures TrimLeft(before + s) == s
  {
    if before == "" {
      assert before + s == s;
    } else {
      assert (before + s)[1..] == before[1..] + s;
      LeftGone(before[1..], s);
    }
  }

  lemma {:induction false} RightGone(s: string, after: string)
    requires Spaces(after) && (s == "" || s[|s| - 1] !in " \t")
    ensures TrimRight(s + after) == s
  {
    var t := s + after;
    if after == "" {
      assert t == s;
    } else {
      assert t[..|t| - 1] == s + after[..|after| - 1];
      RightGone(s, after[..|after| - 1]);
    }
  }

  /** Blanks around a text go, and nothing else does. */
  lemma TrimBetween(before: string, s: string, after: string)
    requires Spaces(before) && Edgeless(s) && Spaces(after)
    ensures Trim(before + s + after) == s
  {
    if s == "" {
      var all := before + s + after;
      assert all + "" == all;
      LeftGone(all, "");
    } else {
      assert before + s + after == before + (s + after);
      LeftGone(before, s + after);
      RightGone(s, after);
    }
  }

  lemma {:induction false} TrimShortens(s: string)
    ensures |TrimLeft(s)| <= |s| && |TrimRight(s)| <= |s|
  {
    if s != "" {
      TrimShortens(s[1..]);
      TrimShortens(s[..|s| - 1]);
    }
  }

  /** Trimming leaves a text alone exactly when it has no blank at either end. */
  lemma TrimKeepsEdgeless(s: string)
    ensures Trim(s) == s <==> Edgeless(s)
  {
    if Edgeless(s) {
      assert "" + s + "" == s;
      TrimBetween("", s, "");
    } else {
      TrimShortens(s[1..]);
      TrimShortens(s[..|s| - 1]);
      TrimShortens(TrimLeft(s));
      if s[0] in " \t" {
        assert |Trim(s)| < |s|;
      } else {
        assert TrimLeft(s) == s;
      }
    }
  }

  // ----- fields on their lines -----

  /** A name, a value, and the blanks written around the value. */
  datatype Header = Header(name: string, before: string, value: string, after: string)

  function HeaderLine(h: Header): string {
    h.name + ":" + h.before + h.value + h.after
  }

  /** The parts are where the line puts them; nothing else is asked of them. */
  predicate Placed(h: Header) {
    && ':' !in h.name && '\r' !in h.name && '\r' !in h.value
    && Spaces(h.before) && Edgeless(h.value) && Spaces(h.after)
  }

  predicate AllPlaced(headers: seq<Header>) {
    forall k :: 0 <= k < |headers| ==> Placed(headers[k])
  }

  lemma LineChars(h: Header)
    requires Placed(h)
    ensures HeaderLine(h) != "" && '\r' !in HeaderLine(h)
  {
  }

  /** Where the line splits, and what both parsers cut out. */
  lemma LineSplits(h: Header)
    requires Placed(h)
    ensures var line, colon := HeaderLine(h), |h.name|;
            && Find(line, ":", 0) == Some(colon) && line[..colon] == h.name
            && Trim(line[colon + 1..]) == h.value && Lower(h.name) == Folded(h.name)
            && (Trim(h.name) == h.name <==> Edgeless(h.name))
  {
    var line, back := HeaderLine(h), h.before + h.value + h.after;
    assert line == h.name + [':'] + back;
    FindAfter(h.name, ':', back);
    assert line[..|h.name|] == h.name && line[|h.name| + 1..] == back;
    hide Find, Trim, Lower;
    TrimBetween(h.before, h.value, h.after);
    TrimKeepsEdgeless(h.name);
    LowerFolds(h.name);
  }

  lemma TokenIsEdgeless(s: string)
    requires Token(s)
    ensures Edgeless(s)
  {
  }
}
