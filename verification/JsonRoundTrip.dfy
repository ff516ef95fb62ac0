/** Parsing what was printed gives the value back. */
module JsonRoundTrip {
  import opened Text
  import opened JsonText

  /** The value up to the one thing the parser cannot see: an unsigned number that would also
      fit a signed one comes back signed. */
  function Canon(v: Json): Json
    decreases v, 0
  {
    match v
    case UInt64(u) => if u < INT64_LIMIT then Int64(u) else v
    case Arr(items) => Arr(CanonItems(items))
    case Obj(members) => Obj(CanonMembers(members))
    case _ => v
  }

  function CanonItems(items: seq<Json>): seq<Json>
    decreases items, 1
  {
    if items == [] then [] else [Canon(items[0])] + CanonItems(items[1..])
  }

  function CanonMember(member: Member): Member
    decreases member, 1
  {
    Member(member.key, Canon(member.item))
  }

  function CanonMembers(members: seq<Member>): seq<Member>
    decreases members, 2
  {
    if members == [] then [] else [CanonMember(members[0])] + CanonMembers(members[1..])
  }

  // ----- space -----

  predicate AllSpace(w: string) {
    forall k :: 0 <= k < |w| ==> IsSpace(w[k])
  }

  lemma {:induction false} SkipsSpace(w: string, s: string)
    requires AllSpace(w)
    ensures SkipSpace(w + s) == SkipSpace(s)
  {
    if w == "" {
      assert w + s == s;
    } else {
      assert (w + s)[1..] == w[1..] + s;
      SkipsSpace(w[1..], s);
    }
  }

  // ----- strings -----

  lemma ControlEscape(c: char, s: string, out: string)
    requires c < 0x20 as char && |EscapeChar(c)| == 6
    ensures StringBody(EscapeChar(c) + s, out) == StringBody(s, out + [c])
  {
    var e, h, l := EscapeChar(c), c as nat / 16, c as nat % 16;
    var t := e + s;
    DigitOf(h);
    DigitOf(l);
    assert e == ['\\', 'u', '0', '0', DIGITS[h], DIGITS[l]];
    assert t[2..6] == ['0', '0', DIGITS[h], DIGITS[l]];
    assert HexValue(t[2..6]) == c as nat;
    assert t[6..] == s;
  }

  lemma CharRoundTrip(c: char, s: string, out: string)
    ensures StringBody(EscapeChar(c) + s, out) == StringBody(s, out + [c])
  {
    var e := EscapeChar(c);
    var t := e + s;
    if |e| == 6 {
      ControlEscape(c, s, out);
    } else {
      assert t[|e|..] == s && t[0] == e[0];
      if |e| == 2 {
        assert t[1] == e[1];
      }
    }
  }

  /** The text s holds the rest of a string: parsed onto `out` it gives `all`, and r is left. */
  ghost predicate Completes(s: string, out: string, all: string, r: string) {
    StringBody(s, out) == Ok(all, r)
  }

  lemma StringCloses(out: string, r: string, s: string)
    requires s == "\"" + r
    ensures Completes(s, out, out, r)
  {
    assert s[1..] == r;
  }

  lemma {:induction false} StringReads(x: string, r: string, out: string, s: string, all: string)
    requires s == Escape(x) + "\"" + r && all == out + x
    ensures Completes(s, out, all, r)
    decreases |x|
  {
    hide StringBody, EscapeChar;
    if x == "" {
      assert s == "\"" + r && all == out;
      StringCloses(out, r, s);
    } else {
      var tail, more := Escape(x[1..]) + "\"" + r, out + [x[0]];
      assert s == EscapeChar(x[0]) + tail;
      assert all == more + x[1..];
      StringReads(x[1..], r, more, tail, all);
      CharRoundTrip(x[0], tail, out);
      assert Completes(s, out, all, r);
    }
  }

  lemma StringRoundTrip(x: string, r: string, out: string)
    ensures StringBody(Escape(x) + "\"" + r, out) == Ok(out + x, r)
  {
    hide StringBody, Escape;
    StringReads(x, r, out, Escape(x) + "\"" + r, out + x);
  }

  // ----- numbers -----

  predicate IsDecimal(c: char) {
    '0' <= c <= '9'
  }

  /** What may follow a number without being taken for a part of it. */
  predicate Delimited(r: string) {
    r == "" || (!IsDecimal(r[0]) && r[0] !in ".eE+-")
  }

  lemma {:induction false} SkipDigitsBefore(t: string, r: string)
    requires r == "" || !IsDecimal(r[0])
    ensures SkipDigits(t + r) == SkipDigits(t) + r
  {
    if t == "" {
      assert t + r == r;
      assert SkipDigits(r) == r;
    } else {
      assert (t + r)[1..] == t[1..] + r;
      SkipDigitsBefore(t[1..], r);
    }
  }

  lemma IntegerBefore(t: string, r: string)
    requires (r == "" || !IsDecimal(r[0])) && ScanInteger(t).Ok?
    ensures ScanInteger(t + r) == Ok((), ScanInteger(t).rest + r)
  {
    var u := if t[0] == '-' then t[1..] else t;
    assert (t + r)[0] == t[0] && (if t[0] == '-' then (t + r)[1..] else t + r) == u + r;
    assert u != "" && (u + r)[0] == u[0];
    assert (u + r)[1..] == u[1..] + r;
    SkipDigitsBefore(u, r);
    hide SkipDigits;
  }

  lemma FractionBefore(t: string, r: string)
    requires Delimited(r) && ScanFraction(t).Ok?
    ensures ScanFraction(t + r) == Ok(ScanFraction(t).value, ScanFraction(t).rest + r)
  {
    if t == "" {
      assert t + r == r;
    } else {
      assert (t + r)[1..] == t[1..] + r;
      SkipDigitsBefore(t[1..], r);
    }
  }

  lemma ExponentBefore(t: string, r: string)
    requires Delimited(r) && ScanExponent(t).Ok?
    ensures ScanExponent(t + r) == Ok(ScanExponent(t).value, ScanExponent(t).rest + r)
  {
    if t == "" {
      assert t + r == r;
    } else if t[0] == 'e' || t[0] == 'E' {
      var u := if |t| > 1 && (t[1] == '+' || t[1] == '-') then t[2..] else t[1..];
      assert |t| > 1;
      assert (if |t| > 1 && (t[1] == '+' || t[1] == '-') then (t + r)[2..] else (t + r)[1..]) == u + r;
      SkipDigitsBefore(u, r);
    }
  }

  /** A scanned number is scanned the same when something that cannot continue it follows. */
  lemma NumberBefore(t: string, r: string)
    requires Delimited(r) && ScanNumber(t).Ok?
    ensures ScanNumber(t + r) == Ok(ScanNumber(t).value, ScanNumber(t).rest + r)
  {
    IntegerBefore(t, r);
    FractionBefore(ScanInteger(t).rest, r);
    ExponentBefore(ScanFraction(ScanInteger(t).rest).rest, r);
  }

  /** A text that is one number and nothing else. */
  predicate NumberToken(t: string, floating: bool) {
    ScanNumber(t) == Ok(floating, "")
  }

  lemma TokenRoundTrip(fl: Floats, t: string, floating: bool, r: string)
    requires NumberToken(t, floating) && Delimited(r) && NumberOf(fl, t, floating).Some?
    ensures ParseNumber(fl, t + r) == Ok(NumberOf(fl, t, floating).value, r)
    ensures t != "" && (t[0] == '-' || IsDecimal(t[0]))
  {
    NumberBefore(t, r);
    assert (t + r)[..|t|] == t;
  }

  lemma {:induction false} SkipsAllDigits(s: string)
    requires forall k :: 0 <= k < |s| ==> IsDecimal(s[k])
    ensures SkipDigits(s) == ""
  {
    if s != "" {
      SkipsAllDigits(s[1..]);
    }
  }

  lemma NumeralToken(n: nat)
    ensures NumberToken(Numeral(n, 10), false)
    ensures n > 0 ==> NumberToken("-" + Numeral(n, 10), false)
  {
    var t := Numeral(n, 10);
    NumeralReads(n, 10);
    NumeralLeading(n, 10);
    forall k | 0 <= k < |t| ensures IsDecimal(t[k]) {
      assert DigitValue(t[k]) < 10;
    }
    SkipsAllDigits(t);
    assert ("-" + t)[1..] == t;
  }

  /** std::to_string then std::from_chars. */
  lemma DecimalReads(i: int)
    ensures NumberToken(Decimal(i), false) && IntegerOf(Decimal(i)) == i
    ensures i >= 0 ==> Decimal(i)[0] != '-'
  {
    var n := if i < 0 then -i else i;
    NumeralToken(n);
    NumeralReads(n, 10);
    var t := Numeral(n, 10);
    assert DigitValue(t[0]) < 10;
    assert ("-" + t)[1..] == t;
  }

  /** The assumption on the library: what it prints for a double is a number, and reading that number gives the
      double back, also with a fraction of zero behind a whole number. */
  ghost predicate Faithful(fl: Floats) {
    forall d: Float :: Prints(fl, fl.format(d), d)
  }

  ghost predicate Prints(fl: Floats, t: string, d: Float) {
    && ScanNumber(t).Ok? && ScanNumber(t).rest == "" && fl.read(t) == Some(d)
    && (!ScanNumber(t).value ==> fl.read(t + ".0") == Some(d))
  }

  /** Whole numbers have no point and no exponent, others one or the other. */
  lemma PointIs(t: string, floating: bool)
    requires NumberToken(t, floating)
    ensures HasPoint(t) <==> floating
  {
    var s1 := ScanInteger(t).rest;
    IntegerChars(t);
    assert t == t[..|t| - |s1|] + s1;
    if !floating {
      assert s1 == "";
    } else {
      var s2 := ScanFraction(s1).rest;
      assert s1 != "" && (s1[0] == '.' || (s2 == s1 && (s1[0] == 'e' || s1[0] == 'E')));
      assert s1[0] == t[|t| - |s1|];
    }
  }

  lemma {:induction false} DigitChars(s: string)
    ensures |SkipDigits(s)| <= |s| && s[|s| - |SkipDigits(s)|..] == SkipDigits(s)
    ensures forall k :: 0 <= k < |s| - |SkipDigits(s)| ==> IsDecimal(s[k])
  {
    if s != "" && IsDecimal(s[0]) {
      DigitChars(s[1..]);
      var n := |SkipDigits(s[1..])|;
      assert s[|s| - n..] == s[1..][|s| - 1 - n..];
      assert forall k :: 1 <= k < |s| - n ==> s[k] == s[1..][k - 1];
    }
  }

  lemma IntegerChars(t: string)
    requires ScanInteger(t).Ok?
    ensures var n := |ScanInteger(t).rest|;
            && n <= |t| && t[|t| - n..] == ScanInteger(t).rest
            && forall k :: 0 <= k < |t| - n ==> IsDecimal(t[k]) || t[k] == '-'
  {
    var u := if t[0] == '-' then t[1..] else t;
    DigitChars(u);
    var n := |ScanInteger(t).rest|;
    assert t[0] == '-' ==> t[|t| - n..] == u[|u| - n..] && forall k :: 1 <= k < |t| ==> t[k] == u[k - 1];
  }

  /** A whole number with a fraction of zero is a number, not a whole one. */
  lemma AddPoint(t: string)
    requires NumberToken(t, false)
    ensures NumberToken(t + ".0", true)
  {
    var s1 := ScanInteger(t).rest;
    assert s1 == "";
    IntegerBefore(t, ".0");
    assert "" + ".0" == ".0";
    assert ".0"[1..] == "0" && "0"[1..] == "";
    assert SkipDigits("0") == SkipDigits("") == "";
  }

  lemma FloatReads(fl: Floats, d: Float)
    requires Faithful(fl)
    ensures NumberToken(FloatText(fl, d), true) && fl.read(FloatText(fl, d)) == Some(d)
  {
    var t := fl.format(d);
    assert Prints(fl, t, d);
    hide ScanNumber, HasPoint;
    var floating := ScanNumber(t).value;
    assert NumberToken(t, floating);
    PointIs(t, floating);
    if !floating {
      AddPoint(t);
    }
  }

  // ----- values -----

  /** The first character of a printed value tells the parser which kind it is. */
  lemma DumpHead(fl: Floats, v: Json)
    requires Faithful(fl)
    ensures Dump(fl, v) != "" && !IsSpace(Dump(fl, v)[0]) && Dump(fl, v)[0] != ']' && Dump(fl, v)[0] != '}'
  {
    match v
    case Int64(i) => DecimalReads(i); TokenHead(Decimal(i), false);
    case UInt64(u) => DecimalReads(u); TokenHead(Decimal(u), false);
    case Double(d) => FloatReads(fl, d); TokenHead(FloatText(fl, d), true);
    case _ =>
  }

  lemma TokenHead(t: string, floating: bool)
    requires NumberToken(t, floating)
    ensures t != "" && (t[0] == '-' || IsDecimal(t[0]))
  {
  }

  lemma NumberDispatch(fl: Floats, s: string)
    requires s != "" && (s[0] == '-' || IsDecimal(s[0]))
    ensures ParseValue(fl, s) == ParseNumber(fl, s)
  {
    assert SkipSpace(s) == s;
    NotWord(s, "true");
    NotWord(s, "false");
    NotWord(s, "null");
  }

  lemma NotWord(s: string, word: string)
    requires s != "" && word != "" && s[0] != word[0]
    ensures !Starts(s, word)
  {
  }

  lemma NumberRoundTrip(fl: Floats, t: string, floating: bool, r: string)
    requires NumberToken(t, floating) && Delimited(r) && NumberOf(fl, t, floating).Some?
    ensures ParseValue(fl, t + r) == Ok(NumberOf(fl, t, floating).value, r)
  {
    TokenRoundTrip(fl, t, floating, r);
    NumberDispatch(fl, t + r);
  }

  lemma WordRoundTrip(fl: Floats, r: string)
    ensures ParseValue(fl, "null" + r) == Ok(Null, r)
    ensures ParseValue(fl, "true" + r) == Ok(Bool(true), r)
    ensures ParseValue(fl, "false" + r) == Ok(Bool(false), r)
  {
    assert ("null" + r)[..4] == "null" && ("null" + r)[4..] == r;
    assert ("true" + r)[..4] == "true" && ("true" + r)[4..] == r;
    assert ("false" + r)[..5] == "false" && ("false" + r)[5..] == r;
  }

  lemma TextRoundTrip(fl: Floats, x: string, r: string)
    ensures ParseValue(fl, Quoted(x) + r) == Ok(Str(x), r)
  {
    hide StringBody, Escape;
    StringRoundTrip(x, r, "");
    var s, body := Quoted(x) + r, Escape(x) + "\"" + r;
    assert s[0] == '\"' && s[1..] == body;
    assert "" + x == x;
    assert SkipSpace(s) == s;
    hide SkipSpace;
  }

  /** THE ROUND TRIP, for every value and whatever text follows it. */
  lemma {:induction false} ValueRoundTrip(fl: Floats, v: Json, r: string)
    requires Faithful(fl) && WellFormed(v) && Delimited(r)
    ensures ParseValue(fl, Dump(fl, v) + r) == Ok(Canon(v), r)
    decreases v, 0
  {
    match v
    case Null => WordRoundTrip(fl, r);
    case Bool(_) => WordRoundTrip(fl, r);
    case Int64(i) => DecimalReads(i); NumberRoundTrip(fl, Decimal(i), false, r);
    case UInt64(u) => DecimalReads(u); NumberRoundTrip(fl, Decimal(u), false, r);
    case Double(d) => FloatReads(fl, d); NumberRoundTrip(fl, FloatText(fl, d), true, r);
    case Str(s) => TextRoundTrip(fl, s, r);
    case Arr(items) => ArrayRoundTrip(fl, items, r);
    case Obj(members) => ObjectRoundTrip(fl, members, r);
  }

  lemma ArrayRoundTrip(fl: Floats, items: seq<Json>, r: string)
    requires Faithful(fl) && WellFormed(Arr(items)) && Delimited(r)
    ensures ParseValue(fl, "[" + DumpItems(fl, items) + "]" + r) == Ok(Arr(CanonItems(items)), r)
    decreases items, 2
  {
    hide ParseItems, ParseObject, ParseNumber;
    var s := "[" + DumpItems(fl, items) + "]" + r;
    var inner := DumpItems(fl, items) + "]" + r;
    assert s[0] == '[' && s[1..] == inner;
    if items == [] {
      assert inner == "]" + r;
      assert inner[1..] == r;
    } else {
      DumpHead(fl, items[0]);
      assert inner[0] == Dump(fl, items[0])[0];
      ItemsRoundTrip(fl, items, r, []);
      assert [] + CanonItems(items) == CanonItems(items);
    }
  }

  lemma ItemStep(fl: Floats, s: string, v: Json, after: string, before: seq<Json>)
    requires after != "" && (after[0] == ']' || after[0] == ',') && ParseValue(fl, s) == Ok(v, after)
    ensures ParseItems(fl, s, before) ==
            if after[0] == ']' then Ok(Arr(before + [v]), after[1..]) else ParseItems(fl, after[1..], before + [v])
  {
    assert SkipSpace(after) == after;
  }

  lemma ItemsSplit(fl: Floats, items: seq<Json>, r: string)
    requires items != []
    ensures DumpItems(fl, items) + "]" + r ==
            Dump(fl, items[0]) + if |items| == 1 then "]" + r else "," + (DumpItems(fl, items[1..]) + "]" + r)
  {
  }

  lemma RestOfArray(items: seq<Json>)
    requires WellFormed(Arr(items)) && items != []
    ensures WellFormed(items[0]) && WellFormed(Arr(items[1..]))
  {
    var rest := items[1..];
    assert forall k :: 0 <= k < |rest| ==> rest[k] == items[k + 1];
  }

  lemma {:induction false} ItemsRoundTrip(fl: Floats, items: seq<Json>, r: string, before: seq<Json>)
    requires Faithful(fl) && WellFormed(Arr(items)) && items != [] && Delimited(r)
    ensures ParseItems(fl, DumpItems(fl, items) + "]" + r, before) == Ok(Arr(before + CanonItems(items)), r)
    decreases items, 1
  {
    hide ParseValue, ParseItems, Dump, DumpItems;
    var s, tail := DumpItems(fl, items) + "]" + r, DumpItems(fl, items[1..]) + "]" + r;
    ItemsSplit(fl, items, r);
    RestOfArray(items);
    var more := before + [Canon(items[0])];
    var after := if |items| == 1 then "]" + r else "," + tail;
    ValueRoundTrip(fl, items[0], after);
    ItemStep(fl, s, Canon(items[0]), after, before);
    if |items| == 1 {
      assert after[1..] == r && CanonItems(items) == [Canon(items[0])];
    } else {
      assert after[1..] == tail;
      ItemsRoundTrip(fl, items[1..], r, more);
      assert more + CanonItems(items[1..]) == before + CanonItems(items);
    }
  }

  ghost predicate NewKeys(members: seq<Member>, before: seq<Member>) {
    forall j, k :: 0 <= j < |before| && 0 <= k < |members| ==> before[j].key != members[k].key
  }

  lemma {:induction false} AssignNew(before: seq<Member>, key: string, v: Json)
    requires forall j :: 0 <= j < |before| ==> before[j].key != key
    ensures Assign(before, key, v) == before + [Member(key, v)]
  {
    if before != [] {
      AssignNew(before[1..], key, v);
    }
  }

  lemma ObjectDispatch(fl: Floats, s: string, inner: string)
    requires s == "{" + inner && inner != "" && !IsSpace(inner[0])
    ensures ParseValue(fl, s) == if inner[0] == '}' then Ok(Obj([]), inner[1..]) else ParseMembers(fl, inner, [])
  {
    assert s[0] == '{' && s[1..] == inner;
    assert SkipSpace(inner) == inner;
  }

  lemma ObjectRoundTrip(fl: Floats, members: seq<Member>, r: string)
    requires Faithful(fl) && WellFormed(Obj(members)) && Delimited(r)
    ensures ParseValue(fl, "{" + DumpMembers(fl, members) + "}" + r) == Ok(Obj(CanonMembers(members)), r)
    decreases members, 3
  {
    hide ParseValue, ParseMembers, Dump, CanonMember, Escape;
    var s := "{" + DumpMembers(fl, members) + "}" + r;
    var inner := DumpMembers(fl, members) + "}" + r;
    assert s == "{" + inner;
    if members == [] {
      assert inner == "}" + r && inner[1..] == r;
    } else {
      assert DumpMember(fl, members[0])[0] == '\"';
      assert inner[0] == DumpMember(fl, members[0])[0];
      MembersRoundTrip(fl, members, r, []);
      assert [] + CanonMembers(members) == CanonMembers(members);
    }
    ObjectDispatch(fl, s, inner);
  }

  /** The key of a printed member, then the colon, then its value. */
  lemma MemberRoundTrip(fl: Floats, member: Member, after: string)
    requires ParseValue(fl, Dump(fl, member.item) + after) == Ok(Canon(member.item), after)
    ensures ParseMember(fl, DumpMember(fl, member) + after) == Ok(CanonMember(member), after)
  {
    hide ParseValue, Dump, StringBody, Escape;
    var value := Dump(fl, member.item) + after;
    var s := DumpMember(fl, member) + after;
    assert s[0] == '\"' && s[1..] == Escape(member.key) + "\"" + (":" + value);
    StringRoundTrip(member.key, ":" + value, "");
    assert "" + member.key == member.key;
    assert (":" + value)[1..] == value;
  }

  lemma MemberStep(fl: Floats, s: string, member: Member, after: string, before: seq<Member>)
    requires after != "" && (after[0] == '}' || after[0] == ',') && ParseMember(fl, s) == Ok(member, after)
    requires forall j :: 0 <= j < |before| ==> before[j].key != member.key
    ensures ParseMembers(fl, s, before) ==
            var more := before + [member];
            if after[0] == '}' then Ok(Obj(more), after[1..]) else ParseMembers(fl, after[1..], more)
  {
    assert SkipSpace(after) == after;
    AssignNew(before, member.key, member.item);
  }

  lemma MembersSplit(fl: Floats, members: seq<Member>, r: string)
    requires members != []
    ensures DumpMembers(fl, members) + "}" + r ==
            DumpMember(fl, members[0]) + if |members| == 1 then "}" + r else "," + (DumpMembers(fl, members[1..]) + "}" + r)
  {
  }

  /** The first of the members, and where the parser goes on. */
  lemma FirstMember(fl: Floats, members: seq<Member>, r: string, before: seq<Member>, s: string, after: string)
    requires members != [] && NewKeys(members, before) && s == DumpMembers(fl, members) + "}" + r
    requires after == AfterFirst(fl, members, r)
    requires ParseValue(fl, Dump(fl, members[0].item) + after) == Ok(Canon(members[0].item), after)
    ensures var more := before + [CanonMember(members[0])];
            ParseMembers(fl, s, before) == if |members| == 1 then Ok(Obj(more), r) else ParseMembers(fl, after[1..], more)
  {
    hide ParseValue, ParseMember, ParseMembers, Dump, DumpMember, DumpMembers, Canon;
    MembersSplit(fl, members, r);
    MemberRoundTrip(fl, members[0], after);
    MemberStep(fl, s, CanonMember(members[0]), after, before);
    if |members| == 1 {
      assert after[1..] == r;
    }
  }

  function AfterFirst(fl: Floats, members: seq<Member>, r: string): string
    requires members != []
  {
    if |members| == 1 then "}" + r else "," + (DumpMembers(fl, members[1..]) + "}" + r)
  }

  /** The texts and lists on both sides of the first member. */
  lemma MembersLayout(fl: Floats, members: seq<Member>, r: string, before: seq<Member>)
    requires members != []
    ensures Delimited(AfterFirst(fl, members, r))
    ensures var more := before + [CanonMember(members[0])];
            before + CanonMembers(members) == if |members| == 1 then more else more + CanonMembers(members[1..])
    ensures |members| > 1 ==> AfterFirst(fl, members, r)[1..] == DumpMembers(fl, members[1..]) + "}" + r
  {
    hide DumpMembers, CanonMember;
    if |members| == 1 {
      assert CanonMembers(members[1..]) == [];
    }
  }

  lemma {:induction false} MembersRead(fl: Floats, members: seq<Member>, r: string, before: seq<Member>, s: string, all: seq<Member>)
    requires Faithful(fl) && WellFormed(Obj(members)) && members != [] && Delimited(r) && NewKeys(members, before)
    requires s == DumpMembers(fl, members) + "}" + r && all == before + CanonMembers(members)
    ensures ReadsMembers(fl, s, before, all, r)
    decreases members, 1
  {
    assert WellFormed(members[0].item);
    hide ParseValue, ParseMembers, Dump, DumpMembers, Faithful, CanonMember, NewKeys, Canon, WellFormed, Delimited, AfterFirst,
         CanonMembers;
    var after, more := AfterFirst(fl, members, r), before + [CanonMember(members[0])];
    MembersLayout(fl, members, r, before);
    ValueRoundTrip(fl, members[0].item, after);
    FirstMember(fl, members, r, before, s, after);
    if |members| > 1 {
      RestOfObject(members, before);
      MembersRead(fl, members[1..], r, more, after[1..], all);
    }
  }

  ghost predicate ReadsMembers(fl: Floats, s: string, before: seq<Member>, all: seq<Member>, r: string) {
    ParseMembers(fl, s, before) == Ok(Obj(all), r)
  }

  lemma MembersRoundTrip(fl: Floats, members: seq<Member>, r: string, before: seq<Member>)
    requires Faithful(fl) && WellFormed(Obj(members)) && members != [] && Delimited(r) && NewKeys(members, before)
    ensures ParseMembers(fl, DumpMembers(fl, members) + "}" + r, before) == Ok(Obj(before + CanonMembers(members)), r)
    decreases members, 2
  {
    hide ParseMembers, DumpMembers, Faithful, NewKeys, CanonMembers, Delimited;
    MembersRead(fl, members, r, before, DumpMembers(fl, members) + "}" + r, before + CanonMembers(members));
  }

  lemma RestOfObject(members: seq<Member>, before: seq<Member>)
    requires WellFormed(Obj(members)) && members != [] && NewKeys(members, before)
    ensures WellFormed(Obj(members[1..])) && NewKeys(members[1..], before + [CanonMember(members[0])])
  {
    var rest := members[1..];
    assert forall k :: 0 <= k < |rest| ==> rest[k] == members[k + 1];
  }

  /** JSON ROUND TRIP.  Any printed value, with any space around it, parses to that value. */
  lemma RoundTrip(fl: Floats, v: Json, before: string, after: string)
    requires Faithful(fl) && WellFormed(v) && AllSpace(before) && AllSpace(after)
    ensures Parse(fl, before + Dump(fl, v) + after) == Ok(Canon(v), "")
  {
    var s := Dump(fl, v) + after;
    assert before + Dump(fl, v) + after == before + s;
    SkipsSpace(before, s);
    DumpHead(fl, v);
    assert SkipSpace(s) == s;
    assert Delimited(after) by {
      if after != "" { assert IsSpace(after[0]); }
    }
    ValueRoundTrip(fl, v, after);
    SkipsSpace(after, "");
    assert after + "" == after;
  }

  // ----- the other direction: every accepted text -----

  /** What the parser can produce: well-formed, and unsigned only when signed does not fit. */
  predicate Settled(v: Json) {
    WellFormed(v) && Canon(v) == v
  }

  lemma {:induction false} SettledItems(items: seq<Json>)
    requires forall k :: 0 <= k < |items| ==> Settled(items[k])
    ensures CanonItems(items) == items
  {
    if items != [] {
      assert Settled(items[0]);
      SettledItems(items[1..]);
    }
  }

  ghost predicate SettledMembers(members: seq<Member>) {
    DistinctKeys(members) && forall k :: 0 <= k < |members| ==> Settled(members[k].item)
  }

  lemma {:induction false} SettledObject(members: seq<Member>)
    requires forall k :: 0 <= k < |members| ==> Settled(members[k].item)
    ensures CanonMembers(members) == members
  {
    if members != [] {
      assert Settled(members[0].item);
      SettledObject(members[1..]);
    }
  }

  /** Every member afterwards is the new one or an old one. */
  lemma {:induction false} AssignKeys(members: seq<Member>, key: string, v: Json, k: nat)
    requires k < |Assign(members, key, v)|
    ensures Assign(members, key, v)[k] == Member(key, v) || Assign(members, key, v)[k] in members
  {
    if members != [] && k > 0 {
      if members[0].key == key {
        assert Assign(members, key, v)[k] == members[k];
      } else {
        AssignKeys(members[1..], key, v, k - 1);
        assert Assign(members, key, v)[k] == Assign(members[1..], key, v)[k - 1];
        assert forall m :: m in members[1..] ==> m in members;
      }
    }
  }

  lemma {:induction false} AssignDistinct(members: seq<Member>, key: string, v: Json)
    requires DistinctKeys(members)
    ensures DistinctKeys(Assign(members, key, v))
  {
    if members != [] && members[0].key != key {
      AssignDistinct(members[1..], key, v);
      var rest := Assign(members[1..], key, v);
      forall k | 0 <= k < |rest| ensures rest[k].key != members[0].key {
        AssignKeys(members[1..], key, v, k);
      }
      assert Assign(members, key, v) == [members[0]] + rest;
    }
  }

  lemma AssignSettled(members: seq<Member>, key: string, v: Json)
    requires SettledMembers(members) && Settled(v)
    ensures SettledMembers(Assign(members, key, v))
  {
    AssignDistinct(members, key, v);
    var more := Assign(members, key, v);
    forall k | 0 <= k < |more| ensures Settled(more[k].item) {
      AssignKeys(members, key, v, k);
    }
  }

  lemma {:induction false} ParsedSettled(fl: Floats, s: string)
    requires ParseValue(fl, s).Ok?
    ensures Settled(ParseValue(fl, s).value)
    decreases |s|, 1
  {
    var t := SkipSpace(s);
    if t[0] == '{' {
      var u := SkipSpace(t[1..]);
      if u == "" || u[0] != '}' { MembersSettled(fl, u, []); }
    } else if t[0] == '[' {
      var u := SkipSpace(t[1..]);
      if u == "" || u[0] != ']' { ItemsSettled(fl, u, []); }
    }
  }

  lemma {:induction false} ItemsSettled(fl: Floats, s: string, items: seq<Json>)
    requires ParseItems(fl, s, items).Ok? && forall k :: 0 <= k < |items| ==> Settled(items[k])
    ensures Settled(ParseItems(fl, s, items).value)
    decreases |s|, 2
  {
    ParsedSettled(fl, s);
    var r := ParseValue(fl, s);
    var t := SkipSpace(r.rest);
    if t[0] == ']' {
      SettledItems(items + [r.value]);
    } else {
      ItemsSettled(fl, t[1..], items + [r.value]);
    }
  }

  lemma {:induction false} MembersSettled(fl: Floats, s: string, members: seq<Member>)
    requires ParseMembers(fl, s, members).Ok? && SettledMembers(members)
    ensures Settled(ParseMembers(fl, s, members).value)
    decreases |s|, 3
  {
    MemberSettled(fl, s);
    var r := ParseMember(fl, s);
    var w := SkipSpace(r.rest);
    var more := Assign(members, r.value.key, r.value.item);
    AssignSettled(members, r.value.key, r.value.item);
    if w[0] == '}' {
      SettledObject(more);
    } else {
      MembersSettled(fl, w[1..], more);
    }
  }

  lemma MemberSettled(fl: Floats, s: string)
    requires ParseMember(fl, s).Ok?
    ensures Settled(ParseMember(fl, s).value.item)
    decreases |s|, 2
  {
    var key := ParseString(SkipSpace(s));
    ParsedSettled(fl, SkipSpace(key.rest)[1..]);
  }

  /** Whatever text the parser accepts, printing the value and parsing again changes nothing. */
  lemma ReparseIsStable(fl: Floats, s: string)
    requires Faithful(fl) && Parse(fl, s).Ok?
    ensures Parse(fl, Dump(fl, Parse(fl, s).value)) == Parse(fl, s)
  {
    var v := Parse(fl, s).value;
    ParsedSettled(fl, SkipSpace(s));
    RoundTrip(fl, v, "", "");
    assert "" + Dump(fl, v) + "" == Dump(fl, v);
  }
}
