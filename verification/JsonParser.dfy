/** The parser and printer as they run: a cursor moving over the source, containers and output
    growing in loops. */
module JsonParser {
  import opened Text
  import opened JsonText

  datatype Result<+T> = Value(value: T) | Thrown(error: Error)

  lemma HexIsValue(s: string)
    requires |s| == 4 && AllDigits(s, 16)
    ensures Text.Value(s, 16) == HexValue(s)
  {
    assert s[..3][..2] == s[..2] && s[..2][..1] == s[..1] && s[..1][..0] == "";
    assert Text.Value(s[..1], 16) == DigitValue(s[0]);
    assert Text.Value(s[..2], 16) == DigitValue(s[0]) * 16 + DigitValue(s[1]);
    assert Text.Value(s[..3], 16) == Text.Value(s[..2], 16) * 16 + DigitValue(s[2]);
  }

  lemma DropTwice(s: string, a: nat, b: nat)
    requires a + b <= |s|
    ensures s[a..][b..] == s[a + b..]
  {
  }

  class Parser {
    const source: string
    const floats: Floats
    var cursor: nat

    constructor (source: string, floats: Floats)
      ensures this.source == source && this.floats == floats && cursor == 0
    {
      this.source, this.floats, cursor := source, floats, 0;
    }

    ghost predicate Valid()
      reads this
    {
      cursor <= |source|
    }

    function Rest(): string
      requires cursor <= |source|
      reads this
    {
      source[cursor..]
    }

    /** The method did what `spec` says of the text that was left: the same error, or the same
        value with the cursor at the text after it. */
    ghost predicate Follows<T>(spec: Parsed<T>, result: Result<T>)
      requires Valid()
      reads this
    {
      match spec
      case Bad(e) => result == Thrown(e)
      case Ok(v, rest) => result == Value(v) && Rest() == rest
    }

    method SkipSpace()
      requires Valid()
      modifies this
      ensures Valid() && old(cursor) <= cursor
      ensures Rest() == JsonText.SkipSpace(old(Rest()))
    {
      while cursor < |source| && IsSpace(source[cursor])
        invariant old(cursor) <= cursor <= |source|
        invariant JsonText.SkipSpace(Rest()) == JsonText.SkipSpace(old(Rest()))
      {
        assert Rest()[1..] == source[cursor + 1..];
        cursor := cursor + 1;
      }
    }

    method Consume(word: string) returns (taken: bool)
      requires Valid()
      modifies this
      ensures Valid() && old(cursor) <= cursor
      ensures taken == Starts(old(Rest()), word)
      ensures taken ==> Rest() == old(Rest())[|word|..]
      ensures !taken ==> cursor == old(cursor)
    {
      taken := |source| - cursor >= |word| && source[cursor..cursor + |word|] == word;
      assert |source| - cursor >= |word| ==> Rest()[..|word|] == source[cursor..cursor + |word|];
      if taken {
        assert Rest()[|word|..] == source[cursor + |word|..];
        cursor := cursor + |word|;
      }
    }

    /** The four digits of a unicode escape. */
    method ParseHex() returns (code: Option<nat>)
      requires Valid() && cursor + 4 <= |source|
      modifies this
      ensures Valid() && old(cursor) <= cursor
      ensures code.Some? == AllDigits(old(Rest())[..4], 16)
      ensures code.Some? ==> code.value == HexValue(old(Rest())[..4]) && Rest() == old(Rest())[4..]
    {
      ghost var digits := Rest()[..4];
      var n, index := 0, 0;
      while index < 4
        invariant 0 <= index <= 4 && cursor == old(cursor) + index
        invariant AllDigits(digits[..index], 16) && n == Text.Value(digits[..index], 16)
      {
        var digit := source[cursor];
        cursor := cursor + 1;
        assert digit == digits[index];
        if DigitValue(digit) == 16 { return None; }
        n := n * 16 + DigitValue(digit);
        assert digits[..index + 1][..index] == digits[..index];
        index := index + 1;
      }
      assert digits[..4] == digits;
      HexIsValue(digits);
      return Some(n);
    }

    method ParseString() returns (result: Result<string>)
      requires Valid() && cursor < |source|
      modifies this
      ensures Valid() && old(cursor) <= cursor
      ensures Follows(JsonText.ParseString(old(Rest())), result)
    {
      hide HexValue, Utf8, SimpleEscape, AllDigits, StringBody;
      if source[cursor] != '\"' { return Thrown(NotQuoted); }
      cursor := cursor + 1;
      var output := "";
      ghost var spec := StringBody(Rest(), "");
      assert spec == JsonText.ParseString(old(Rest())) by { assert old(Rest())[1..] == Rest(); }
      while cursor < |source|
        invariant old(cursor) <= cursor <= |source|
        invariant StringBody(Rest(), output) == spec
        decreases |source| - cursor
      {
        ghost var rest, start := Rest(), cursor;
        DropTwice(source, start, 1);
        StringBodySteps(rest, output);
        var current := source[cursor];
        assert rest[0] == current;
        cursor := cursor + 1;
        if current == '\"' { return Value(output); }
        if current != '\\' {
          if current < 0x20 as char { return Thrown(ControlCharacter); }
          output := output + [current];
        } else {
          if cursor >= |source| { return Thrown(IncompleteEscape); }
          var escaped := source[cursor];
          assert |rest| >= 2 && rest[1] == escaped;
          cursor := cursor + 1;
          DropTwice(source, start, 2);
          if escaped == 'u' {
            StringBodyUnicode(rest, output);
            if cursor + 4 > |source| { return Thrown(IncompleteUnicode); }
            DropTwice(source, start, 6);
            assert Rest()[..4] == rest[2..6] && Rest()[4..] == rest[6..];
            var code := ParseHex();
            if code.None? { return Thrown(InvalidUnicode); }
            output := output + Utf8(code.value);
          } else {
            StringBodyEscape(rest, output);
            var c := SimpleEscape(escaped);
            if c.None? { return Thrown(InvalidEscape); }
            output := output + [c.value];
          }
        }
      }
      assert Rest() == "";
      StringBodyEnds(output);
      return Thrown(UnterminatedString);
    }

    method SkipDigits()
      requires Valid()
      modifies this
      ensures Valid() && old(cursor) <= cursor
      ensures Rest() == JsonText.SkipDigits(old(Rest()))
    {
      while cursor < |source| && '0' <= source[cursor] <= '9'
        invariant old(cursor) <= cursor <= |source|
        invariant JsonText.SkipDigits(Rest()) == JsonText.SkipDigits(old(Rest()))
      {
        assert Rest()[1..] == source[cursor + 1..];
        cursor := cursor + 1;
      }
    }

    method ScanInteger() returns (result: Result<()>)
      requires Valid() && cursor < |source|
      modifies this
      ensures Valid() && old(cursor) <= cursor
      ensures Follows(JsonText.ScanInteger(old(Rest())), result)
    {
      ghost var rest, start := Rest(), cursor;
      assert forall k :: 0 <= k <= |rest| ==> rest[k..] == source[start + k..];
      if source[cursor] == '-' { cursor := cursor + 1; }
      if cursor >= |source| { return Thrown(InvalidNumber); }
      ghost var t := Rest();
      assert t[1..] == source[cursor + 1..];
      if source[cursor] == '0' {
        cursor := cursor + 1;
      } else {
        if !('1' <= source[cursor] <= '9') { return Thrown(InvalidNumber); }
        SkipDigits();
      }
      return Value(());
    }

    method ScanFraction() returns (result: Result<bool>)
      requires Valid()
      modifies this
      ensures Valid() && old(cursor) <= cursor
      ensures Follows(JsonText.ScanFraction(old(Rest())), result)
    {
      if cursor >= |source| || source[cursor] != '.' { return Value(false); }
      assert Rest()[1..] == source[cursor + 1..];
      cursor := cursor + 1;
      var start := cursor;
      SkipDigits();
      if start == cursor { return Thrown(InvalidFraction); }
      return Value(true);
    }

    method ScanExponent() returns (result: Result<bool>)
      requires Valid()
      modifies this
      ensures Valid() && old(cursor) <= cursor
      ensures Follows(JsonText.ScanExponent(old(Rest())), result)
    {
      if cursor >= |source| || (source[cursor] != 'e' && source[cursor] != 'E') { return Value(false); }
      ghost var rest, from := Rest(), cursor;
      assert forall k :: 0 <= k <= |rest| ==> rest[k..] == source[from + k..];
      cursor := cursor + 1;
      if cursor < |source| && (source[cursor] == '+' || source[cursor] == '-') { cursor := cursor + 1; }
      var start := cursor;
      SkipDigits();
      if start == cursor { return Thrown(InvalidExponent); }
      return Value(true);
    }

    method ParseNumber() returns (result: Result<Json>)
      requires Valid() && cursor < |source|
      modifies this
      ensures Valid() && old(cursor) <= cursor
      ensures Follows(JsonText.ParseNumber(floats, old(Rest())), result)
    {
      hide NumberOf, JsonText.ScanInteger, JsonText.ScanFraction, JsonText.ScanExponent;
      var start := cursor;
      var integer := ScanInteger();
      if integer.Thrown? { return Thrown(integer.error); }
      var fraction := ScanFraction();
      if fraction.Thrown? { return Thrown(fraction.error); }
      var exponent := ScanExponent();
      if exponent.Thrown? { return Thrown(exponent.error); }
      var token := source[start..cursor];
      assert token == old(Rest())[..|old(Rest())| - |Rest()|];
      var number := NumberOf(floats, token, fraction.value || exponent.value);
      if number.None? { return Thrown(OutOfRange); }
      return Value(number.value);
    }

    method ParseValue() returns (result: Result<Json>)
      requires Valid()
      modifies this
      ensures Valid() && old(cursor) <= cursor
      ensures Follows(JsonText.ParseValue(floats, old(Rest())), result)
      decreases |source| - cursor, 2
    {
      SkipSpace();
      if cursor >= |source| { return Thrown(UnexpectedEnd); }
      ghost var t := Rest();
      assert t == JsonText.SkipSpace(old(Rest()));
      var current := source[cursor];
      if current == '\"' {
        var text := ParseString();
        return if text.Thrown? then Thrown(text.error) else Value(Str(text.value));
      }
      if current == '{' { result := ParseObject(); return; }
      if current == '[' { result := ParseArray(); return; }
      var word := Consume("true");
      if word { return Value(Bool(true)); }
      word := Consume("false");
      if word { return Value(Bool(false)); }
      word := Consume("null");
      if word { return Value(Null); }
      if current == '-' || '0' <= current <= '9' { result := ParseNumber(); return; }
      return Thrown(InvalidValue);
    }

    method ParseArray() returns (result: Result<Json>)
      requires Valid() && cursor < |source|
      modifies this
      ensures Valid() && old(cursor) <= cursor
      ensures Follows(JsonText.ParseArray(floats, old(Rest())), result)
      decreases |source| - cursor, 1
    {
      hide JsonText.ParseValue, JsonText.SkipSpace, ParseItems;
      assert Rest()[1..] == source[cursor + 1..];
      cursor := cursor + 1;
      SkipSpace();
      if cursor < |source| && source[cursor] == ']' {
        assert Rest()[1..] == source[cursor + 1..];
        cursor := cursor + 1;
        return Value(Arr([]));
      }
      result := ParseItemList();
    }

    method ParseItemList() returns (result: Result<Json>)
      requires Valid()
      modifies this
      ensures Valid() && old(cursor) <= cursor
      ensures Follows(ParseItems(floats, old(Rest()), []), result)
      decreases |source| - cursor, 4
    {
      hide JsonText.ParseValue, JsonText.SkipSpace, ParseItems;
      var items := [];
      while true
        invariant old(cursor) <= cursor <= |source|
        invariant ParseItems(floats, Rest(), items) == ParseItems(floats, old(Rest()), [])
        decreases |source| - cursor
      {
        ParseItemsStep(floats, Rest(), items);
        var item := ParseValue();
        if item.Thrown? { return Thrown(item.error); }
        items := items + [item.value];
        SkipSpace();
        if cursor >= |source| { return Thrown(UnterminatedArray); }
        assert Rest()[1..] == source[cursor + 1..];
        if source[cursor] == ']' {
          cursor := cursor + 1;
          return Value(Arr(items));
        }
        if source[cursor] != ',' { return Thrown(MissingArrayComma); }
        cursor := cursor + 1;
      }
    }

    method ParseMember() returns (result: Result<Member>)
      requires Valid()
      modifies this
      ensures Valid() && old(cursor) <= cursor
      ensures Follows(JsonText.ParseMember(floats, old(Rest())), result)
      decreases |source| - cursor, 3
    {
      hide JsonText.ParseValue, StringBody;
      SkipSpace();
      if cursor >= |source| || source[cursor] != '\"' { return Thrown(KeyNotString); }
      var key := ParseString();
      if key.Thrown? { return Thrown(key.error); }
      SkipSpace();
      if cursor >= |source| || source[cursor] != ':' { return Thrown(MissingColon); }
      assert Rest()[1..] == source[cursor + 1..];
      cursor := cursor + 1;
      var item := ParseValue();
      if item.Thrown? { return Thrown(item.error); }
      return Value(Member(key.value, item.value));
    }

    method ParseObject() returns (result: Result<Json>)
      requires Valid() && cursor < |source|
      modifies this
      ensures Valid() && old(cursor) <= cursor
      ensures Follows(JsonText.ParseObject(floats, old(Rest())), result)
      decreases |source| - cursor, 1
    {
      hide JsonText.ParseMember, JsonText.ParseValue, Assign, ParseMembers, JsonText.SkipSpace;
      assert Rest()[1..] == source[cursor + 1..];
      cursor := cursor + 1;
      SkipSpace();
      if cursor < |source| && source[cursor] == '}' {
        assert Rest()[1..] == source[cursor + 1..];
        cursor := cursor + 1;
        return Value(Obj([]));
      }
      result := ParseMemberList();
    }

    method ParseMemberList() returns (result: Result<Json>)
      requires Valid()
      modifies this
      ensures Valid() && old(cursor) <= cursor
      ensures Follows(ParseMembers(floats, old(Rest()), []), result)
      decreases |source| - cursor, 4
    {
      hide JsonText.ParseMember, JsonText.ParseValue, Assign, ParseMembers, JsonText.SkipSpace;
      var members := [];
      while true
        invariant old(cursor) <= cursor <= |source|
        invariant ParseMembers(floats, Rest(), members) == ParseMembers(floats, old(Rest()), [])
        decreases |source| - cursor
      {
        ParseMembersStep(floats, Rest(), members);
        var member := ParseMember();
        if member.Thrown? { return Thrown(member.error); }
        members := Assign(members, member.value.key, member.value.item);
        SkipSpace();
        if cursor >= |source| { return Thrown(UnterminatedObject); }
        assert Rest()[1..] == source[cursor + 1..];
        if source[cursor] == '}' {
          cursor := cursor + 1;
          return Value(Obj(members));
        }
        if source[cursor] != ',' { return Thrown(MissingObjectComma); }
        cursor := cursor + 1;
      }
    }

    /** The whole source must be one value. */
    method Parse() returns (result: Result<Json>)
      requires cursor == 0
      modifies this
      ensures Valid()
      ensures Follows(JsonText.Parse(floats, source), result)
    {
      assert Rest() == source;
      SkipSpace();
      result := ParseValue();
      if result.Thrown? { return; }
      SkipSpace();
      if cursor != |source| { return Thrown(UnexpectedData); }
    }
  }

  // ----- printing -----

  method EscapeString(value: string) returns (output: string)
    ensures output == Escape(value)
  {
    output := "";
    for k := 0 to |value|
      invariant output + Escape(value[k..]) == Escape(value)
    {
      assert value[k..][1..] == value[k + 1..];
      output := output + EscapeChar(value[k]);
    }
  }

  method DumpJson(floats: Floats, v: Json) returns (output: string)
    ensures output == Dump(floats, v)
    decreases v, 0
  {
    match v
    case Null => return "null";
    case Bool(b) => return if b then "true" else "false";
    case Int64(i) => return Decimal(i);
    case UInt64(u) => return Decimal(u);
    case Double(d) =>
      var number := floats.format(d);
      if !HasPoint(number) { number := number + ".0"; }
      return number;
    case Str(s) =>
      var escaped := EscapeString(s);
      return "\"" + escaped + "\"";
    case Arr(items) => output := DumpArray(floats, items);
    case Obj(members) => output := DumpObject(floats, members);
  }

  method DumpArray(floats: Floats, items: seq<Json>) returns (output: string)
    ensures output == "[" + DumpItems(floats, items) + "]"
    decreases items, 1
  {
    hide Dump;
    output := "[";
    for k := 0 to |items|
      invariant output + (if 0 < k < |items| then "," else "") + DumpItems(floats, items[k..])
                == "[" + DumpItems(floats, items)
    {
      if k > 0 { output := output + ","; }
      var item := DumpJson(floats, items[k]);
      assert items[k..][0] == items[k] && items[k..][1..] == items[k + 1..];
      output := output + item;
    }
    output := output + "]";
  }

  method DumpObject(floats: Floats, members: seq<Member>) returns (output: string)
    ensures output == "{" + DumpMembers(floats, members) + "}"
    decreases members, 2
  {
    hide DumpMember;
    output := "{";
    for k := 0 to |members|
      invariant output + (if 0 < k < |members| then "," else "") + DumpMembers(floats, members[k..])
                == "{" + DumpMembers(floats, members)
    {
      if k > 0 { output := output + ","; }
      assert members[k..][0] == members[k] && members[k..][1..] == members[k + 1..];
      var member := DumpField(floats, members[k]);
      output := output + member;
    }
    output := output + "}";
  }

  method DumpField(floats: Floats, member: Member) returns (output: string)
    ensures output == DumpMember(floats, member)
    decreases member, 1
  {
    var key := EscapeString(member.key);
    var item := DumpJson(floats, member.item);
    output := "\"" + key + "\":" + item;
  }
}
