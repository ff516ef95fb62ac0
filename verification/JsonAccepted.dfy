/** The converse: every text the parser accepts is a text of the grammar, with the meaning the parser gave it. */
module JsonAccepted {
  import opened Text
  import opened JsonText
  import opened JsonRoundTrip
  import opened JsonLexis
  import opened JsonGrammar

  lemma {:induction false} GapFound(s: string) returns (w: string)
    ensures Gap(w) && s == w + SkipSpace(s)
  {
    if s != "" && IsSpace(s[0]) {
      var rest := GapFound(s[1..]);
      w := [s[0]] + rest;
      assert s == [s[0]] + s[1..];
    } else {
      w := "";
      assert s == "" + s;
    }
  }

  /** The text s is a gap, this document with this meaning, and a rest. */
  ghost predicate Holds(fl: Floats, s: string, w: string, doc: Doc, v: Json, r: string) {
    Gap(w) && Good(doc) && s == w + Spell(doc) + r && Means(fl, doc) == Some(v)
  }

  lemma LiteralFound(t: string) returns (ps: seq<Piece>)
    requires t != "" && ParseString(t).Ok?
    ensures GoodPieces(ps) && t == "\"" + PiecesText(ps) + "\"" + ParseString(t).rest && Spoken(ps) == ParseString(t).value
  {
    ps := PiecesFound(t[1..], "");
    assert "" + Spoken(ps) == Spoken(ps);
    assert t == "\"" + t[1..];
  }

  lemma NumberFound(fl: Floats, t: string) returns (f: Figure)
    requires ParseNumber(fl, t).Ok?
    ensures GoodFigure(f) && t == FigureText(f) + ParseNumber(fl, t).rest && Amount(fl, f) == Some(ParseNumber(fl, t).value)
  {
    f := FigureFound(t);
    var rest := ScanNumber(t).rest;
    assert t[..|t| - |rest|] == FigureText(f);
    AmountReads(fl, f);
    hide ScanNumber, FigureText, NumberOf, Amount, GoodFigure;
  }

  /** Which branch the parser took. */
  lemma Dispatch(fl: Floats, t: string)
    requires t != "" && SkipSpace(t) == t && ParseValue(fl, t).Ok?
    ensures t[0] == '\"' ==> ParseString(t).Ok? && ParseValue(fl, t) == Ok(Str(ParseString(t).value), ParseString(t).rest)
    ensures t[0] == '{' ==> ParseValue(fl, t) == ParseObject(fl, t)
    ensures t[0] == '[' ==> ParseValue(fl, t) == ParseArray(fl, t)
    ensures t[0] !in "\"{[" ==>
              || (Starts(t, "true") && ParseValue(fl, t) == Ok(Bool(true), t[4..]))
              || (Starts(t, "false") && ParseValue(fl, t) == Ok(Bool(false), t[5..]))
              || (Starts(t, "null") && ParseValue(fl, t) == Ok(Null, t[4..]))
              || ParseValue(fl, t) == ParseNumber(fl, t)
  {
    hide SkipSpace, ParseString, ParseObject, ParseArray, ParseNumber;
  }

  lemma WordFound(fl: Floats, t: string, word: string, r: string)
    requires word in {"true", "false", "null"} && Starts(t, word) && r == t[|word|..]
    ensures Holds(fl, t, "", Word(word), if word == "null" then Null else Bool(word == "true"), r)
  {
    assert t == "" + word + r;
  }

  lemma {:induction false} DocFound(fl: Floats, t: string) returns (doc: Doc)
    requires t != "" && SkipSpace(t) == t && ParseValue(fl, t).Ok?
    ensures Holds(fl, t, "", doc, ParseValue(fl, t).value, ParseValue(fl, t).rest)
    decreases |t|, 4
  {
    Dispatch(fl, t);
    var v, r := ParseValue(fl, t).value, ParseValue(fl, t).rest;
    if t[0] == '\"' {
      var ps := LiteralFound(t);
      doc := Literal(ps);
      LiteralHolds(fl, t, ps, r);
    } else if t[0] == '{' {
      doc := TableFound(fl, t);
    } else if t[0] == '[' {
      doc := ListFound(fl, t);
    } else if Starts(t, "true") && ParseValue(fl, t) == Ok(Bool(true), t[4..]) {
      doc := Word("true");
      WordFound(fl, t, "true", r);
    } else if Starts(t, "false") && ParseValue(fl, t) == Ok(Bool(false), t[5..]) {
      doc := Word("false");
      WordFound(fl, t, "false", r);
    } else if Starts(t, "null") && ParseValue(fl, t) == Ok(Null, t[4..]) {
      doc := Word("null");
      WordFound(fl, t, "null", r);
    } else {
      var f := NumberFound(fl, t);
      doc := Number(f);
      NumberHolds(fl, t, f, v, r);
    }
  }

  lemma LiteralHolds(fl: Floats, t: string, ps: seq<Piece>, r: string)
    requires GoodPieces(ps) && t == "\"" + PiecesText(ps) + "\"" + r
    ensures Holds(fl, t, "", Literal(ps), Str(Spoken(ps)), r)
  {
    hide GoodPieces, PiecesText, Spoken;
    var text := "\"" + PiecesText(ps) + "\"";
    assert t == "" + text + r;
  }

  lemma NumberHolds(fl: Floats, t: string, f: Figure, v: Json, r: string)
    requires GoodFigure(f) && t == FigureText(f) + r && Amount(fl, f) == Some(v)
    ensures Holds(fl, t, "", Number(f), v, r)
  {
    hide GoodFigure, FigureText, Amount;
    assert t == "" + FigureText(f) + r;
  }

  lemma ValueFound(fl: Floats, s: string) returns (w: string, doc: Doc)
    requires ParseValue(fl, s).Ok?
    ensures Holds(fl, s, w, doc, ParseValue(fl, s).value, ParseValue(fl, s).rest)
    decreases |s|, 5
  {
    var t := SkipSpace(s);
    SkipTwice(s);
    w := GapFound(s);
    assert t != "";
    assert ParseValue(fl, s) == ParseValue(fl, t) by {
      hide SkipSpace, ParseString, ParseObject, ParseArray, ParseNumber;
    }
    hide ParseValue, SkipSpace;
    doc := DocFound(fl, t);
    Moved(fl, s, w, t, doc, ParseValue(fl, s).value, ParseValue(fl, s).rest);
  }

  lemma Moved(fl: Floats, s: string, w: string, t: string, doc: Doc, v: Json, r: string)
    requires Gap(w) && s == w + t && Holds(fl, t, "", doc, v, r)
    ensures Holds(fl, s, w, doc, v, r)
  {
    hide Good, Spell, Means;
    assert t == Spell(doc) + r;
    assert w + (Spell(doc) + r) == w + Spell(doc) + r;
  }

  // ----- lists -----

  lemma EntryFound(fl: Floats, s: string) returns (e: Entry, t: string)
    requires ParseValue(fl, s).Ok?
    ensures GoodEntry(e) && s == SpellEntry(e) + t && Means(fl, e.doc) == Some(ParseValue(fl, s).value)
    ensures t == SkipSpace(ParseValue(fl, s).rest)
    decreases |s|, 6
  {
    var w, doc := ValueFound(fl, s);
    var r := ParseValue(fl, s).rest;
    var after := GapFound(r);
    t := SkipSpace(r);
    e := Entry(w, doc, after);
    hide Means, Good, Spell, ParseValue, SkipSpace;
    assert w + Spell(doc) + (after + t) == w + Spell(doc) + after + t;
  }

  ghost predicate ItemsHold(fl: Floats, s: string, items: seq<Entry>, values: seq<Json>, r: string) {
    && items != [] && (forall k :: 0 <= k < |items| ==> GoodEntry(items[k]))
    && s == SpellItems(items) + "]" + r && ItemsMean(fl, items) == Some(values)
  }

  lemma LastItem(fl: Floats, s: string, e: Entry, v: Json, t: string)
    requires GoodEntry(e) && s == SpellEntry(e) + t && t != "" && t[0] == ']' && Means(fl, e.doc) == Some(v)
    ensures ItemsHold(fl, s, [e], [v], t[1..])
  {
    hide GoodEntry, SpellEntry, Means;
    assert t == "]" + t[1..];
    assert ItemsMean(fl, []) == Some([]) && [e][1..] == [] && [v] + [] == [v];
  }

  lemma MoreItems(fl: Floats, s: string, e: Entry, v: Json, t: string, items: seq<Entry>, values: seq<Json>, r: string)
    requires GoodEntry(e) && s == SpellEntry(e) + t && t != "" && t[0] == ',' && Means(fl, e.doc) == Some(v)
    requires ItemsHold(fl, t[1..], items, values, r)
    ensures ItemsHold(fl, s, [e] + items, [v] + values, r)
  {
    hide GoodEntry, SpellEntry, Means;
    var all := [e] + items;
    assert t == "," + t[1..];
    assert all[0] == e && all[1..] == items && |all| > 1;
    assert SpellItems(all) == SpellEntry(e) + "," + SpellItems(items);
    assert ItemsMean(fl, all) == Some([v] + values);
    hide SpellItems, ItemsMean;
    assert s == SpellEntry(e) + ("," + (SpellItems(items) + "]" + r));
  }

  lemma ItemsOk(fl: Floats, s: string, before: seq<Json>)
    requires ParseItems(fl, s, before).Ok?
    ensures ParseValue(fl, s).Ok?
    ensures var v := ParseValue(fl, s); var t := SkipSpace(v.rest);
            && t != ""
            && (t[0] == ']' || t[0] == ',')
            && ParseItems(fl, s, before) == if t[0] == ']' then Ok(Arr(before + [v.value]), t[1..]) else ParseItems(fl, t[1..], before + [v.value])
  {
    ParseItemsStep(fl, s, before);
    hide ParseItems, ParseValue, SkipSpace;
  }

  lemma {:induction false} ItemsFound(fl: Floats, s: string, before: seq<Json>) returns (items: seq<Entry>, values: seq<Json>)
    requires ParseItems(fl, s, before).Ok?
    ensures ItemsHold(fl, s, items, values, ParseItems(fl, s, before).rest)
    ensures ParseItems(fl, s, before).value == Arr(before + values)
    decreases |s|, 7
  {
    ItemsOk(fl, s, before);
    var v := ParseValue(fl, s).value;
    var e, t := EntryFound(fl, s);
    assert |t| < |s| by { Shorter(fl, s); }
    hide ParseItems, ParseValue, SkipSpace, GoodEntry, SpellEntry, Means, ItemsHold;
    if t[0] == ']' {
      items, values := [e], [v];
      LastItem(fl, s, e, v, t);
    } else {
      var rest, more := ItemsFound(fl, t[1..], before + [v]);
      items, values := [e] + rest, [v] + more;
      MoreItems(fl, s, e, v, t, rest, more, ParseItems(fl, s, before).rest);
      assert before + [v] + more == before + ([v] + more);
    }
  }

  lemma Shorter(fl: Floats, s: string)
    requires ParseValue(fl, s).Ok?
    ensures |SkipSpace(ParseValue(fl, s).rest)| < |s|
  {
  }

  lemma ListFound(fl: Floats, t: string) returns (doc: Doc)
    requires t != "" && t[0] == '[' && SkipSpace(t) == t && ParseValue(fl, t).Ok?
    ensures Holds(fl, t, "", doc, ParseValue(fl, t).value, ParseValue(fl, t).rest)
    decreases |t|, 3
  {
    var inner := t[1..];
    assert t == "[" + inner;
    ListDispatch(fl, t, inner);
    var u := SkipSpace(inner);
    var v, r := ParseValue(fl, t).value, ParseValue(fl, t).rest;
    hide ParseValue, ParseItems, SkipSpace;
    if u != "" && u[0] == ']' {
      var gap := GapFound(inner);
      doc := List(gap, []);
      EmptyListHolds(fl, t, gap, u, r);
    } else {
      ItemsSkip(fl, inner, []);
      var items, values := ItemsFound(fl, inner, []);
      doc := List("", items);
      assert [] + values == values;
      ListHolds(fl, t, inner, items, values, r);
    }
  }

  lemma EmptyListHolds(fl: Floats, t: string, gap: string, u: string, r: string)
    requires Gap(gap) && t == "[" + (gap + u) && u != "" && u[0] == ']' && r == u[1..]
    ensures Holds(fl, t, "", List(gap, []), Arr([]), r)
  {
    assert u == "]" + r;
    assert t == "" + ("[" + gap + "]") + r;
  }

  lemma ListHolds(fl: Floats, t: string, inner: string, items: seq<Entry>, values: seq<Json>, r: string)
    requires t == "[" + inner && ItemsHold(fl, inner, items, values, r)
    ensures Holds(fl, t, "", List("", items), Arr(values), r)
  {
    hide GoodEntry, SpellItems, ItemsMean;
    var text := SpellItems(items);
    assert t == "" + ("[" + text + "]") + r;
  }

  // ----- tables -----

  ghost predicate PairHolds(fl: Floats, s: string, p: Pair, m: Member, t: string) {
    GoodPair(p) && s == SpellPair(p) + t && Spoken(p.key) == m.key && Means(fl, p.entry.doc) == Some(m.item)
  }

  lemma MemberOk(fl: Floats, s: string)
    requires ParseMember(fl, s).Ok?
    ensures var t := SkipSpace(s);
            && t != "" && ParseString(t).Ok?
            && var u := SkipSpace(ParseString(t).rest);
               && u != "" && u[0] == ':' && |u[1..]| < |s| && ParseValue(fl, u[1..]).Ok?
               && ParseMember(fl, s) == Ok(Member(ParseString(t).value, ParseValue(fl, u[1..]).value), ParseValue(fl, u[1..]).rest)
  {
    hide ParseString, ParseValue;
  }

  lemma PairFound(fl: Floats, s: string) returns (p: Pair, t: string)
    requires ParseMember(fl, s).Ok?
    ensures PairHolds(fl, s, p, ParseMember(fl, s).value, t) && t == SkipSpace(ParseMember(fl, s).rest)
    decreases |s|, 7
  {
    MemberOk(fl, s);
    var a := SkipSpace(s);
    var key := ParseString(a);
    var b := SkipSpace(key.rest);
    var before := GapFound(s);
    var ps := LiteralFound(a);
    var middle := GapFound(key.rest);
    var e;
    e, t := EntryFound(fl, b[1..]);
    p := Pair(before, ps, middle, e);
    hide ParseMember, ParseValue, ParseString, SkipSpace, GoodEntry, SpellEntry, Means, PiecesText, Spoken, GoodPieces;
    assert b == ":" + b[1..];
    PairLayout(before, PiecesText(ps), middle, SpellEntry(e), t);
  }

  ghost predicate PairsHold(fl: Floats, s: string, pairs: seq<Pair>, before: seq<Member>, all: seq<Member>, r: string) {
    && pairs != [] && (forall k :: 0 <= k < |pairs| ==> GoodPair(pairs[k]))
    && s == SpellPairs(pairs) + "}" + r && PairsMean(fl, pairs, before) == Some(all)
  }

  lemma LastPair(fl: Floats, s: string, p: Pair, m: Member, t: string, before: seq<Member>)
    requires PairHolds(fl, s, p, m, t) && t != "" && t[0] == '}'
    ensures PairsHold(fl, s, [p], before, Assign(before, m.key, m.item), t[1..])
  {
    hide GoodPair, SpellPair, Means, Spoken, Assign;
    assert t == "}" + t[1..];
    assert [p][1..] == [];
    NoPairs(fl, Assign(before, m.key, m.item));
  }

  lemma MorePairs(fl: Floats, s: string, p: Pair, m: Member, t: string, pairs: seq<Pair>, before: seq<Member>, all: seq<Member>, r: string)
    requires PairHolds(fl, s, p, m, t) && t != "" && t[0] == ',' && PairsHold(fl, t[1..], pairs, Assign(before, m.key, m.item), all, r)
    ensures PairsHold(fl, s, [p] + pairs, before, all, r)
  {
    hide GoodPair, SpellPair, Means, Spoken, Assign;
    var both := [p] + pairs;
    assert t == "," + t[1..];
    assert both[0] == p && both[1..] == pairs && |both| > 1;
    assert SpellPairs(both) == SpellPair(p) + "," + SpellPairs(pairs);
    assert PairsMean(fl, both, before) == Some(all);
    hide SpellPairs, PairsMean;
    assert s == SpellPair(p) + ("," + (SpellPairs(pairs) + "}" + r));
  }

  lemma MembersOk(fl: Floats, s: string, before: seq<Member>)
    requires ParseMembers(fl, s, before).Ok?
    ensures ParseMember(fl, s).Ok?
    ensures var m := ParseMember(fl, s); var t := SkipSpace(m.rest);
            var more := Assign(before, m.value.key, m.value.item);
            && t != "" && |t| < |s|
            && (t[0] == '}' || t[0] == ',')
            && ParseMembers(fl, s, before) == if t[0] == '}' then Ok(Obj(more), t[1..]) else ParseMembers(fl, t[1..], more)
  {
    ParseMembersStep(fl, s, before);
    hide ParseMembers, ParseMember, SkipSpace, Assign;
  }

  lemma {:induction false} PairsFound(fl: Floats, s: string, before: seq<Member>) returns (pairs: seq<Pair>, all: seq<Member>)
    requires ParseMembers(fl, s, before).Ok?
    ensures PairsHold(fl, s, pairs, before, all, ParseMembers(fl, s, before).rest)
    ensures ParseMembers(fl, s, before).value == Obj(all)
    decreases |s|, 8
  {
    hide ParseMembers, ParseMember, SkipSpace, PairHolds, PairsHold, Assign;
    MembersOk(fl, s, before);
    var m := ParseMember(fl, s).value;
    var more := Assign(before, m.key, m.item);
    var p, t := PairFound(fl, s);
    if t[0] == '}' {
      pairs, all := [p], more;
      LastPair(fl, s, p, m, t, before);
    } else {
      var rest;
      rest, all := PairsFound(fl, t[1..], more);
      pairs := [p] + rest;
      MorePairs(fl, s, p, m, t, rest, before, all, ParseMembers(fl, s, before).rest);
    }
  }

  lemma TableFound(fl: Floats, t: string) returns (doc: Doc)
    requires t != "" && t[0] == '{' && SkipSpace(t) == t && ParseValue(fl, t).Ok?
    ensures Holds(fl, t, "", doc, ParseValue(fl, t).value, ParseValue(fl, t).rest)
    decreases |t|, 3
  {
    var inner := t[1..];
    assert t == "{" + inner;
    TableDispatch(fl, t, inner);
    var u := SkipSpace(inner);
    var v, r := ParseValue(fl, t).value, ParseValue(fl, t).rest;
    hide ParseValue, ParseMembers, SkipSpace;
    if u != "" && u[0] == '}' {
      var gap := GapFound(inner);
      doc := Table(gap, []);
      EmptyTableHolds(fl, t, gap, u, r);
    } else {
      MembersSkip(fl, inner, []);
      var pairs, all := PairsFound(fl, inner, []);
      doc := Table("", pairs);
      TableHolds(fl, t, inner, pairs, all, r);
    }
  }

  lemma EmptyTableHolds(fl: Floats, t: string, gap: string, u: string, r: string)
    requires Gap(gap) && t == "{" + (gap + u) && u != "" && u[0] == '}' && r == u[1..]
    ensures Holds(fl, t, "", Table(gap, []), Obj([]), r)
  {
    assert u == "}" + r;
    assert t == "" + ("{" + gap + "}") + r;
    TableMeans(fl, gap, []);
  }

  lemma TableHolds(fl: Floats, t: string, inner: string, pairs: seq<Pair>, all: seq<Member>, r: string)
    requires t == "{" + inner && PairsHold(fl, inner, pairs, [], all, r)
    ensures Holds(fl, t, "", Table("", pairs), Obj(all), r)
  {
    TableMeans(fl, "", pairs);
    hide GoodPair, SpellPairs, PairsMean;
    var text := SpellPairs(pairs);
    assert t == "" + ("{" + text + "}") + r;
  }

  // ----- both directions -----

  /** The text is a document of the grammar between gaps, and this is what it means. */
  ghost predicate Denotes(fl: Floats, s: string, v: Json) {
    exists e :: GoodEntry(e) && s == SpellEntry(e) && Means(fl, e.doc) == Some(v)
  }

  lemma EntryParses(fl: Floats, e: Entry)
    requires GoodEntry(e)
    ensures Parse(fl, SpellEntry(e)) == if Means(fl, e.doc).None? then Bad(OutOfRange) else Ok(Means(fl, e.doc).value, "")
  {
    hide ParseValue, Means, Good, Spell;
    var s, rest := SpellEntry(e), Spell(e.doc) + e.after;
    assert s == e.before + rest;
    GapSkipped(e.after, "");
    assert e.after + "" == e.after;
    assert Delimited(e.after);
    ValueSkips(fl, e.before, rest);
    DocRead(fl, e.doc, e.after);
    SkipTwice(s);
    assert ParseValue(fl, SkipSpace(s)) == ParseValue(fl, s) by {
      Trimmed(fl, s);
    }
  }

  lemma Trimmed(fl: Floats, s: string)
    ensures ParseValue(fl, SkipSpace(s)) == ParseValue(fl, s)
  {
    SkipTwice(s);
    hide SkipSpace, ParseString, ParseObject, ParseArray, ParseNumber;
  }

  /** THE PARSER DECIDES THE GRAMMAR.  A text is parsed to a value exactly when it is a text of the grammar that
      means that value. */
  lemma GrammarExactly(fl: Floats, s: string, v: Json)
    ensures Parse(fl, s) == Ok(v, "") <==> Denotes(fl, s, v)
  {
    hide ParseValue, Means, GoodEntry, SpellEntry;
    if Parse(fl, s) == Ok(v, "") {
      Trimmed(fl, s);
      var e, t := EntryFound(fl, s);
      assert t == "" && SpellEntry(e) + t == SpellEntry(e);
    }
    if Denotes(fl, s, v) {
      var e :| GoodEntry(e) && s == SpellEntry(e) && Means(fl, e.doc) == Some(v);
      EntryParses(fl, e);
    }
  }
}
