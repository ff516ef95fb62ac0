/** The grammar of JSON (sections 2 to 5 of RFC 8259) as trees that keep every freedom a writer has: space, the
    spelling of strings and numbers, repeated keys.  The parser accepts exactly the texts of the grammar and
    reads from each what it says. */
module JsonGrammar {
  import opened Text
  import opened JsonText
  import opened JsonRoundTrip
  import opened JsonLexis

  // ----- documents -----

  datatype Doc =
    | Word(text: string)
    | Number(figure: Figure)
    | Literal(pieces: seq<Piece>)
    | List(gap: string, items: seq<Entry>)
    | Table(gap: string, pairs: seq<Pair>)

  /** A document with the space around it. */
  datatype Entry = Entry(before: string, doc: Doc, after: string)

  datatype Pair = Pair(before: string, key: seq<Piece>, middle: string, entry: Entry)

  predicate Gap(w: string) {
    forall k :: 0 <= k < |w| ==> w[k] == ' ' || w[k] == '\t' || w[k] == '\n' || w[k] == '\r'
  }

  predicate Good(doc: Doc)
    decreases doc, 0
  {
    match doc
    case Word(text) => text in {"null", "true", "false"}
    case Number(f) => GoodFigure(f)
    case Literal(ps) => GoodPieces(ps)
    case List(gap, items) => Gap(gap) && forall k :: 0 <= k < |items| ==> GoodEntry(items[k])
    case Table(gap, pairs) => Gap(gap) && forall k :: 0 <= k < |pairs| ==> GoodPair(pairs[k])
  }

  predicate GoodEntry(e: Entry)
    decreases e, 1
  {
    Gap(e.before) && Good(e.doc) && Gap(e.after)
  }

  predicate GoodPair(p: Pair)
    decreases p, 2
  {
    Gap(p.before) && GoodPieces(p.key) && Gap(p.middle) && GoodEntry(p.entry)
  }

  // ----- the text of a document -----

  function Spell(doc: Doc): string
    decreases doc, 0
  {
    match doc
    case Word(text) => text
    case Number(f) => FigureText(f)
    case Literal(ps) => "\"" + PiecesText(ps) + "\""
    case List(gap, items) => "[" + (if items == [] then gap else SpellItems(items)) + "]"
    case Table(gap, pairs) => "{" + (if pairs == [] then gap else SpellPairs(pairs)) + "}"
  }

  function SpellEntry(e: Entry): string
    decreases e, 1
  {
    e.before + Spell(e.doc) + e.after
  }

  function SpellPair(p: Pair): string
    decreases p, 2
  {
    p.before + "\"" + PiecesText(p.key) + "\"" + p.middle + ":" + SpellEntry(p.entry)
  }

  function SpellItems(items: seq<Entry>): string
    decreases items, 2
  {
    if items == [] then ""
    else if |items| == 1 then SpellEntry(items[0])
    else SpellEntry(items[0]) + "," + SpellItems(items[1..])
  }

  function SpellPairs(pairs: seq<Pair>): string
    decreases pairs, 3
  {
    if pairs == [] then ""
    else if |pairs| == 1 then SpellPair(pairs[0])
    else SpellPair(pairs[0]) + "," + SpellPairs(pairs[1..])
  }

  // ----- its meaning: none if it holds a number the library cannot read -----

  function Means(fl: Floats, doc: Doc): Option<Json>
    decreases doc, 0
  {
    match doc
    case Word(text) => Some(if text == "null" then Null else Bool(text == "true"))
    case Number(f) => Amount(fl, f)
    case Literal(ps) => Some(Str(Spoken(ps)))
    case List(_, items) =>
      (match ItemsMean(fl, items)
       case None => None
       case Some(values) => Some(Arr(values)))
    case Table(_, pairs) =>
      (match PairsMean(fl, pairs, [])
       case None => None
       case Some(members) => Some(Obj(members)))
  }

  function ItemsMean(fl: Floats, items: seq<Entry>): Option<seq<Json>>
    decreases items, 1
  {
    if items == [] then Some([])
    else
      match Means(fl, items[0].doc)
      case None => None
      case Some(v) =>
        match ItemsMean(fl, items[1..])
        case None => None
        case Some(rest) => Some([v] + rest)
  }

  /** A key given again takes its later value. */
  function PairsMean(fl: Floats, pairs: seq<Pair>, members: seq<Member>): Option<seq<Member>>
    decreases pairs, 1
  {
    if pairs == [] then Some(members)
    else
      match Means(fl, pairs[0].entry.doc)
      case None => None
      case Some(v) => PairsMean(fl, pairs[1..], Assign(members, Spoken(pairs[0].key), v))
  }

  /** The member of an object with this key. */
  function Lookup(members: seq<Member>, key: string): Option<Json> {
    if members == [] then None else if members[0].key == key then Some(members[0].item) else Lookup(members[1..], key)
  }

  /** Assigning changes what is found under one key. */
  lemma {:induction false} AssignFinds(members: seq<Member>, key: string, v: Json, other: string)
    ensures Lookup(Assign(members, key, v), other) == if other == key then Some(v) else Lookup(members, other)
  {
    if members == [] {
      assert [Member(key, v)][1..] == [];
    } else if members[0].key == key {
      assert ([Member(key, v)] + members[1..])[1..] == members[1..];
    } else {
      AssignFinds(members[1..], key, v, other);
      assert ([members[0]] + Assign(members[1..], key, v))[1..] == Assign(members[1..], key, v);
    }
  }

  // ----- every document is read -----

  lemma {:induction false} GapSkipped(w: string, s: string)
    requires Gap(w)
    ensures SkipSpace(w + s) == SkipSpace(s)
  {
    if w == "" {
      assert w + s == s;
    } else {
      assert (w + s)[1..] == w[1..] + s;
      GapSkipped(w[1..], s);
    }
  }

  lemma ValueSkips(fl: Floats, w: string, s: string)
    requires Gap(w)
    ensures ParseValue(fl, w + s) == ParseValue(fl, s)
  {
    GapSkipped(w, s);
    hide SkipSpace, ParseString, ParseObject, ParseArray, ParseNumber;
  }

  /** What reading comes to: the value, or the one error a document can meet. */
  ghost function Result(m: Option<Json>, r: string): Parsed<Json> {
    if m.None? then Bad(OutOfRange) else Ok(m.value, r)
  }

  lemma FigureRead(fl: Floats, f: Figure, r: string)
    requires GoodFigure(f) && Delimited(r)
    ensures ParseValue(fl, FigureText(f) + r) == Result(Amount(fl, f), r)
  {
    var t := FigureText(f);
    FigureScans(f);
    AmountReads(fl, f);
    NumberBefore(t, r);
    assert (t + r)[..|t|] == t;
    TokenHead(t, Floating(f));
    hide ScanNumber, NumberOf, Amount, FigureText, GoodFigure;
    NumberDispatch(fl, t + r);
  }

  lemma StringDispatch(fl: Floats, s: string, body: string, text: string, r: string)
    requires s == "\"" + body && StringBody(body, "") == Ok(text, r)
    ensures ParseString(s) == Ok(text, r) && ParseValue(fl, s) == Ok(Str(text), r)
  {
    hide StringBody;
    assert s[0] == '\"' && s[1..] == body;
    assert SkipSpace(s) == s;
  }

  lemma LiteralRead(fl: Floats, ps: seq<Piece>, r: string)
    requires GoodPieces(ps)
    ensures ParseString("\"" + PiecesText(ps) + "\"" + r) == Ok(Spoken(ps), r)
    ensures ParseValue(fl, "\"" + PiecesText(ps) + "\"" + r) == Ok(Str(Spoken(ps)), r)
  {
    hide StringBody, PiecesText, Spoken, GoodPieces;
    var body := PiecesText(ps) + "\"" + r;
    assert "" + Spoken(ps) == Spoken(ps);
    PiecesRead(ps, r, "", body, Spoken(ps));
    assert "\"" + PiecesText(ps) + "\"" + r == "\"" + body;
    StringDispatch(fl, "\"" + body, body, Spoken(ps), r);
  }

  /** No document begins with space or with what may follow one. */
  lemma DocHead(doc: Doc)
    requires Good(doc)
    ensures Spell(doc) != "" && !IsSpace(Spell(doc)[0]) && Spell(doc)[0] != ']' && Spell(doc)[0] != '}'
  {
    match doc
    case Number(f) => FigureScans(f); TokenHead(FigureText(f), Floating(f));
    case _ =>
  }

  /** What stands behind an entry of a list or table. */
  predicate Closes(r: string) {
    r != "" && (r[0] == ',' || r[0] == ']' || r[0] == '}')
  }

  lemma AfterEntry(after: string, r: string)
    requires Gap(after) && Closes(r)
    ensures SkipSpace(after + r) == r && Delimited(after + r)
  {
    GapSkipped(after, r);
    assert SkipSpace(r) == r;
    assert after != "" ==> (after + r)[0] == after[0];
    assert after == "" ==> after + r == r;
  }

  lemma {:induction false} DocRead(fl: Floats, doc: Doc, r: string)
    requires Good(doc) && Delimited(r)
    ensures ParseValue(fl, Spell(doc) + r) == Result(Means(fl, doc), r)
    decreases doc, 0
  {
    match doc
    case Word(text) => WordRoundTrip(fl, r);
    case Number(f) => FigureRead(fl, f, r);
    case Literal(ps) => LiteralRead(fl, ps, r);
    case List(gap, items) => ListRead(fl, gap, items, r);
    case Table(gap, pairs) => TableRead(fl, gap, pairs, r);
  }

  lemma EntryRead(fl: Floats, e: Entry, r: string)
    requires GoodEntry(e) && Closes(r)
    ensures ParseValue(fl, SpellEntry(e) + r) == Result(Means(fl, e.doc), e.after + r) && SkipSpace(e.after + r) == r
    decreases e, 1
  {
    hide ParseValue, SkipSpace, Means, Good, Spell, Delimited;
    AfterEntry(e.after, r);
    var rest := Spell(e.doc) + (e.after + r);
    assert SpellEntry(e) + r == e.before + rest;
    ValueSkips(fl, e.before, rest);
    DocRead(fl, e.doc, e.after + r);
  }

  // ----- lists -----

  ghost function ListResult(m: Option<seq<Json>>, before: seq<Json>, r: string): Parsed<Json> {
    if m.None? then Bad(OutOfRange) else Ok(Arr(before + m.value), r)
  }

  /** One round of the loop: an entry, and what stands behind it. */
  lemma ItemTaken(fl: Floats, s: string, m: Option<Json>, after: string, t: string, before: seq<Json>)
    requires ParseValue(fl, s) == Result(m, after) && SkipSpace(after) == t && t != "" && (t[0] == ']' || t[0] == ',')
    ensures ParseItems(fl, s, before) ==
            if m.None? then Bad(OutOfRange)
            else if t[0] == ']' then Ok(Arr(before + [m.value]), t[1..]) else ParseItems(fl, t[1..], before + [m.value])
  {
    ParseItemsStep(fl, s, before);
    hide ParseItems, ParseValue, SkipSpace;
  }

  lemma {:induction false} ItemsRead(fl: Floats, items: seq<Entry>, r: string, before: seq<Json>, s: string)
    requires items != [] && (forall k :: 0 <= k < |items| ==> GoodEntry(items[k])) && s == SpellItems(items) + "]" + r
    ensures ParseItems(fl, s, before) == ListResult(ItemsMean(fl, items), before, r)
    decreases items, 2
  {
    hide ParseItems, ParseValue, SkipSpace, Means, GoodEntry, SpellEntry;
    var e, tail := items[0], SpellItems(items[1..]) + "]" + r;
    var t := if |items| == 1 then "]" + r else "," + tail;
    assert s == SpellEntry(e) + t;
    EntryRead(fl, e, t);
    ItemTaken(fl, s, Means(fl, e.doc), e.after + t, t, before);
    if Means(fl, e.doc).Some? {
      var v := Means(fl, e.doc).value;
      if |items| == 1 {
        assert t[1..] == r && items[1..] == [];
        assert ItemsMean(fl, items) == Some([v] + []);
        assert [v] + [] == [v];
      } else {
        assert t[1..] == tail;
        ItemsRead(fl, items[1..], r, before + [v], tail);
        ItemsMore(fl, items, v, before);
      }
    }
  }

  lemma ItemsMore(fl: Floats, items: seq<Entry>, v: Json, before: seq<Json>)
    requires items != [] && Means(fl, items[0].doc) == Some(v)
    ensures ItemsMean(fl, items).None? <==> ItemsMean(fl, items[1..]).None?
    ensures ItemsMean(fl, items).Some? ==> before + ItemsMean(fl, items).value == (before + [v]) + ItemsMean(fl, items[1..]).value
  {
    hide Means;
  }

  lemma ListDispatch(fl: Floats, s: string, inner: string)
    requires s == "[" + inner
    ensures var t := SkipSpace(inner);
            ParseValue(fl, s) == if t != "" && t[0] == ']' then Ok(Arr([]), t[1..]) else ParseItems(fl, t, [])
  {
    assert s[0] == '[' && s[1..] == inner;
    assert SkipSpace(s) == s;
    hide SkipSpace, ParseItems;
  }

  /** The loops do not mind space in front. */
  lemma ItemsSkip(fl: Floats, s: string, before: seq<Json>)
    ensures ParseItems(fl, SkipSpace(s), before) == ParseItems(fl, s, before)
  {
    SkipTwice(s);
    assert ParseValue(fl, SkipSpace(s)) == ParseValue(fl, s) by {
      hide SkipSpace, ParseString, ParseObject, ParseArray, ParseNumber;
    }
    ParseItemsStep(fl, s, before);
    ParseItemsStep(fl, SkipSpace(s), before);
    hide ParseItems, ParseValue, SkipSpace;
  }

  lemma {:induction false} SkipTwice(s: string)
    ensures SkipSpace(SkipSpace(s)) == SkipSpace(s)
  {
    if s != "" && IsSpace(s[0]) {
      SkipTwice(s[1..]);
    }
  }

  lemma EntryHead(e: Entry, r: string)
    requires GoodEntry(e)
    ensures var t := SkipSpace(SpellEntry(e) + r); t != "" && t[0] != ']' && t[0] != '}'
  {
    DocHead(e.doc);
    var rest := Spell(e.doc) + (e.after + r);
    assert SpellEntry(e) + r == e.before + rest;
    GapSkipped(e.before, rest);
    assert rest[0] == Spell(e.doc)[0];
    assert SkipSpace(rest) == rest;
  }

  lemma ItemsHead(items: seq<Entry>, r: string)
    requires items != [] && GoodEntry(items[0])
    ensures var t := SkipSpace(SpellItems(items) + r); t != "" && t[0] != ']'
  {
    hide SpellEntry, GoodEntry, SkipSpace;
    var more := if |items| == 1 then r else "," + SpellItems(items[1..]) + r;
    assert SpellItems(items) + r == SpellEntry(items[0]) + more;
    EntryHead(items[0], more);
  }

  lemma ListRead(fl: Floats, gap: string, items: seq<Entry>, r: string)
    requires Gap(gap) && forall k :: 0 <= k < |items| ==> GoodEntry(items[k])
    ensures ParseValue(fl, Spell(List(gap, items)) + r) == Result(Means(fl, List(gap, items)), r)
    decreases items, 3
  {
    var inside := if items == [] then gap else SpellItems(items);
    var s, inner := Spell(List(gap, items)) + r, inside + "]" + r;
    assert s == "[" + inner;
    assert items == [] ==> Means(fl, List(gap, items)) == Some(Arr([]));
    ListDispatch(fl, s, inner);
    if items == [] {
      assert inner == gap + ("]" + r);
      GapSkipped(gap, "]" + r);
      assert SkipSpace("]" + r) == "]" + r && ("]" + r)[1..] == r;
    } else {
      var m := ItemsMean(fl, items);
      assert Means(fl, List(gap, items)) == if m.None? then None else Some(Arr(m.value));
      hide Spell, Means, ItemsMean, SpellItems, ParseValue, ParseItems, SkipSpace, GoodEntry;
      assert inner == SpellItems(items) + ("]" + r);
      ItemsHead(items, "]" + r);
      ItemsSkip(fl, inner, []);
      ItemsRead(fl, items, r, [], inner);
      assert m.Some? ==> [] + m.value == m.value;
    }
  }

  // ----- tables -----

  ghost function MemberResult(key: string, m: Option<Json>, r: string): Parsed<Member> {
    if m.None? then Bad(OutOfRange) else Ok(Member(key, m.value), r)
  }

  lemma MemberTaken(fl: Floats, s: string, key: string, colon: string, value: string, m: Option<Json>, r: string)
    requires SkipSpace(s) != "" && SkipSpace(s)[0] == '\"' && ParseString(SkipSpace(s)) == Ok(key, colon)
    requires SkipSpace(colon) == ":" + value && ParseValue(fl, value) == Result(m, r)
    ensures ParseMember(fl, s) == MemberResult(key, m, r)
  {
    hide SkipSpace, ParseString, ParseValue;
    assert (":" + value)[1..] == value;
  }

  lemma KeyHead(p: Pair, r: string, s: string, t: string, colon: string, value: string)
    requires GoodPair(p) && s == SpellPair(p) + r && value == SpellEntry(p.entry) + r
    requires colon == p.middle + (":" + value) && t == "\"" + PiecesText(p.key) + "\"" + colon
    ensures SkipSpace(s) == t && SkipSpace(colon) == ":" + value
  {
    hide SpellEntry, PiecesText, GoodPieces, GoodEntry;
    assert s == p.before + t by {
      var text, entry := PiecesText(p.key), SpellEntry(p.entry);
      assert SpellPair(p) == p.before + "\"" + text + "\"" + p.middle + ":" + entry;
      PairLayout(p.before, text, p.middle, entry, r);
    }
    GapSkipped(p.before, t);
    GapSkipped(p.middle, ":" + value);
    assert t[0] == '\"' && SkipSpace(t) == t;
    assert SkipSpace(":" + value) == ":" + value;
  }

  lemma PairLayout(before: string, text: string, middle: string, entry: string, r: string)
    ensures before + "\"" + text + "\"" + middle + ":" + entry + r == before + ("\"" + text + "\"" + (middle + (":" + (entry + r))))
  {
  }

  lemma PairRead(fl: Floats, p: Pair, r: string, s: string)
    requires GoodPair(p) && Closes(r) && s == SpellPair(p) + r
    ensures ParseMember(fl, s) == MemberResult(Spoken(p.key), Means(fl, p.entry.doc), p.entry.after + r)
    ensures SkipSpace(p.entry.after + r) == r
    decreases p, 2
  {
    var value := SpellEntry(p.entry) + r;
    var colon := p.middle + (":" + value);
    var t := "\"" + PiecesText(p.key) + "\"" + colon;
    hide SpellEntry, PiecesText, Spoken, GoodPieces, GoodEntry, ParseMember, ParseString, ParseValue, SkipSpace, Means, SpellPair;
    KeyHead(p, r, s, t, colon, value);
    LiteralRead(fl, p.key, colon);
    EntryRead(fl, p.entry, r);
    assert t[0] == '\"';
    MemberTaken(fl, s, Spoken(p.key), colon, value, Means(fl, p.entry.doc), p.entry.after + r);
  }

  ghost function TableResult(m: Option<seq<Member>>, r: string): Parsed<Json> {
    if m.None? then Bad(OutOfRange) else Ok(Obj(m.value), r)
  }

  lemma PairTaken(fl: Floats, s: string, key: string, m: Option<Json>, after: string, t: string, before: seq<Member>)
    requires ParseMember(fl, s) == MemberResult(key, m, after) && SkipSpace(after) == t && t != "" && (t[0] == '}' || t[0] == ',')
    ensures ParseMembers(fl, s, before) ==
            if m.None? then Bad(OutOfRange)
            else if t[0] == '}' then Ok(Obj(Assign(before, key, m.value)), t[1..])
            else ParseMembers(fl, t[1..], Assign(before, key, m.value))
  {
    ParseMembersStep(fl, s, before);
    hide ParseMembers, ParseMember, SkipSpace, Assign;
  }

  lemma {:induction false} PairsRead(fl: Floats, pairs: seq<Pair>, r: string, before: seq<Member>, s: string)
    requires pairs != [] && (forall k :: 0 <= k < |pairs| ==> GoodPair(pairs[k])) && s == SpellPairs(pairs) + "}" + r
    ensures ParseMembers(fl, s, before) == TableResult(PairsMean(fl, pairs, before), r)
    decreases pairs, 3
  {
    hide ParseMembers, ParseMember, SkipSpace, Means, GoodPair, SpellPair, Spoken, Assign;
    var p, tail := pairs[0], SpellPairs(pairs[1..]) + "}" + r;
    var t := if |pairs| == 1 then "}" + r else "," + tail;
    assert s == SpellPair(p) + t;
    PairRead(fl, p, t, s);
    PairTaken(fl, s, Spoken(p.key), Means(fl, p.entry.doc), p.entry.after + t, t, before);
    if Means(fl, p.entry.doc).Some? {
      var more := Assign(before, Spoken(p.key), Means(fl, p.entry.doc).value);
      if |pairs| == 1 {
        assert t[1..] == r && pairs[1..] == [];
        assert PairsMean(fl, pairs, before) == Some(more);
      } else {
        assert t[1..] == tail;
        PairsRead(fl, pairs[1..], r, more, tail);
      }
    }
  }

  lemma TableDispatch(fl: Floats, s: string, inner: string)
    requires s == "{" + inner
    ensures var t := SkipSpace(inner);
            ParseValue(fl, s) == if t != "" && t[0] == '}' then Ok(Obj([]), t[1..]) else ParseMembers(fl, t, [])
  {
    assert s[0] == '{' && s[1..] == inner;
    assert SkipSpace(s) == s;
    hide SkipSpace, ParseMembers;
  }

  lemma MembersSkip(fl: Floats, s: string, before: seq<Member>)
    ensures ParseMembers(fl, SkipSpace(s), before) == ParseMembers(fl, s, before)
  {
    SkipTwice(s);
    assert ParseMember(fl, SkipSpace(s)) == ParseMember(fl, s) by {
      hide SkipSpace, ParseString, ParseValue;
    }
    ParseMembersStep(fl, s, before);
    ParseMembersStep(fl, SkipSpace(s), before);
    hide ParseMembers, ParseMember, SkipSpace, Assign;
  }

  lemma PairsHead(pairs: seq<Pair>, r: string)
    requires pairs != [] && GoodPair(pairs[0])
    ensures var t := SkipSpace(SpellPairs(pairs) + r); t != "" && t[0] != '}'
  {
    var p := pairs[0];
    var more := if |pairs| == 1 then r else "," + SpellPairs(pairs[1..]) + r;
    assert SpellPairs(pairs) + r == SpellPair(p) + more;
    var value := SpellEntry(p.entry) + more;
    var colon := p.middle + (":" + value);
    var t := "\"" + PiecesText(p.key) + "\"" + colon;
    hide SpellEntry, PiecesText, GoodPair, SkipSpace, SpellPair;
    KeyHead(p, more, SpellPair(p) + more, t, colon, value);
    assert t[0] == '\"';
  }

  lemma EmptyTable(fl: Floats, gap: string, r: string, s: string)
    requires Gap(gap) && s == "{" + (gap + ("}" + r))
    ensures ParseValue(fl, s) == Ok(Obj([]), r)
  {
    TableDispatch(fl, s, gap + ("}" + r));
    GapSkipped(gap, "}" + r);
    assert SkipSpace("}" + r) == "}" + r && ("}" + r)[1..] == r;
    hide ParseValue, ParseMembers, SkipSpace;
  }

  lemma TableMeans(fl: Floats, gap: string, pairs: seq<Pair>)
    ensures var m := PairsMean(fl, pairs, []);
            Means(fl, Table(gap, pairs)) == if m.None? then None else Some(Obj(m.value))
    ensures pairs == [] ==> Means(fl, Table(gap, pairs)) == Some(Obj([]))
    ensures Spell(Table(gap, pairs)) == "{" + (if pairs == [] then gap else SpellPairs(pairs)) + "}"
  {
    hide PairsMean, SpellPairs;
    assert pairs == [] ==> PairsMean(fl, pairs, []) == Some([]) by {
      NoPairs(fl, []);
    }
  }

  lemma NoPairs(fl: Floats, before: seq<Member>)
    ensures PairsMean(fl, [], before) == Some(before)
  {
  }

  lemma TableRead(fl: Floats, gap: string, pairs: seq<Pair>, r: string)
    requires Gap(gap) && forall k :: 0 <= k < |pairs| ==> GoodPair(pairs[k])
    ensures ParseValue(fl, Spell(Table(gap, pairs)) + r) == Result(Means(fl, Table(gap, pairs)), r)
    decreases pairs, 4
  {
    hide Spell, Means, PairsMean, SpellPairs, ParseValue, ParseMembers, SkipSpace, GoodPair;
    TableMeans(fl, gap, pairs);
    var s := Spell(Table(gap, pairs)) + r;
    if pairs == [] {
      assert s == "{" + (gap + ("}" + r));
      EmptyTable(fl, gap, r, s);
    } else {
      var inner := SpellPairs(pairs) + "}" + r;
      assert s == "{" + inner;
      TableDispatch(fl, s, inner);
      assert inner == SpellPairs(pairs) + ("}" + r);
      PairsHead(pairs, "}" + r);
      MembersSkip(fl, inner, []);
      PairsRead(fl, pairs, r, [], inner);
    }
  }
}
