/** Parameters as header fields carry them (section 5.6.6 of RFC 9110), with every freedom a writer has: blanks, the
    case of names, tokens or quoted strings, needless escapes.  The parser accepts exactly these texts. */
module MultipartParameters {
  import opened Text
  import opened Framing
  import opened HeaderFields
  import opened Multipart

  // ----- the grammar -----

  /** A character of a quoted string, as itself or after a backslash. */
  datatype Mark = Raw(c: char) | Escaped(c: char)

  predicate Shows(c: char) {
    c as int >= 32 && c as int != 127
  }

  predicate GoodMark(m: Mark) {
    Shows(m.c) && (m.Raw? ==> m.c != '"' && m.c != '\\')
  }

  predicate GoodMarks(ms: seq<Mark>) {
    forall k :: 0 <= k < |ms| ==> GoodMark(ms[k])
  }

  function MarkText(m: Mark): string {
    if m.Raw? then [m.c] else ['\\', m.c]
  }

  function MarksText(ms: seq<Mark>): string {
    if ms == [] then "" else MarkText(ms[0]) + MarksText(ms[1..])
  }

  function Said(ms: seq<Mark>): string {
    if ms == [] then "" else [ms[0].c] + Said(ms[1..])
  }

  datatype Value = Word(token: string) | Quote(marks: seq<Mark>)

  predicate GoodValue(v: Value) {
    match v
    case Word(token) => Token(token)
    case Quote(ms) => GoodMarks(ms)
  }

  function ValueText(v: Value): string {
    match v
    case Word(token) => token
    case Quote(ms) => "\"" + MarksText(ms) + "\""
  }

  function ValueMeans(v: Value): string {
    match v
    case Word(token) => token
    case Quote(ms) => Said(ms)
  }

  /** A name and a value with the blanks around them. */
  datatype Param = Param(pre: string, name: string, mid: string, post: string, value: Value, tail: string)

  predicate GoodParam(p: Param) {
    Spaces(p.pre) && Token(p.name) && Spaces(p.mid) && Spaces(p.post) && GoodValue(p.value) && Spaces(p.tail)
  }

  predicate GoodParams(ps: seq<Param>) {
    forall k :: 0 <= k < |ps| ==> GoodParam(ps[k])
  }

  /** From the name to the end of the value. */
  function Core(p: Param): string {
    p.name + p.mid + "=" + p.post + ValueText(p.value)
  }

  function ParamText(p: Param): string {
    p.pre + Core(p) + p.tail
  }

  function ParamsText(ps: seq<Param>): string {
    if ps == [] then "" else ";" + ParamText(ps[0]) + ParamsText(ps[1..])
  }

  /** The values by name, unless a name comes twice. */
  function ParamsMean(ps: seq<Param>, values: map<string, string>): Option<map<string, string>>
    decreases |ps|
  {
    if ps == [] then Some(values)
    else if Folded(ps[0].name) in values then None
    else ParamsMean(ps[1..], values[Folded(ps[0].name) := ValueMeans(ps[0].value)])
  }

  // ----- quoted strings -----

  lemma MarkReads(m: Mark, rest: string, s: string, value: string)
    requires GoodMark(m) && s == MarkText(m) + rest
    ensures Quoted(s, value) == Quoted(rest, value + [m.c])
  {
    if m.Raw? {
      assert s[0] == m.c && s[1..] == rest;
    } else {
      assert s[0] == '\\' && s[1] == m.c && s[2..] == rest;
    }
  }

  lemma {:induction false} MarksRead(ms: seq<Mark>, rest: string, s: string, value: string, all: string)
    requires GoodMarks(ms) && s == MarksText(ms) + "\"" + rest && all == value + Said(ms)
    ensures Quoted(s, value) == Some((all, rest))
    decreases |ms|
  {
    if ms == [] {
      assert s == "\"" + rest && s[0] == '"' && s[1..] == rest;
      assert all == value;
    } else {
      hide Quoted, GoodMark, MarkText;
      var next, more := MarksText(ms[1..]) + "\"" + rest, value + [ms[0].c];
      assert s == MarkText(ms[0]) + next;
      assert all == more + Said(ms[1..]);
      MarkReads(ms[0], next, s, value);
      MarksRead(ms[1..], rest, next, more, all);
    }
  }

  lemma FirstMark(s: string, value: string) returns (m: Mark, rest: string)
    requires s != "" && s[0] != '"' && Quoted(s, value).Some?
    ensures GoodMark(m) && s == MarkText(m) + rest && Quoted(s, value) == Quoted(rest, value + [m.c])
  {
    if s[0] == '\\' {
      m, rest := Escaped(s[1]), s[2..];
    } else {
      m, rest := Raw(s[0]), s[1..];
    }
    assert s == MarkText(m) + rest;
  }

  lemma {:induction false} MarksFound(s: string, value: string) returns (ms: seq<Mark>)
    requires Quoted(s, value).Some?
    ensures GoodMarks(ms) && s == MarksText(ms) + "\"" + Quoted(s, value).value.1
    ensures Quoted(s, value).value.0 == value + Said(ms)
    decreases |s|
  {
    if s[0] == '"' {
      ms := [];
      assert s == "\"" + s[1..];
    } else {
      var m, rest := FirstMark(s, value);
      assert |rest| < |s|;
      hide Quoted, GoodMark, MarkText;
      var more := MarksFound(rest, value + [m.c]);
      ms := [m] + more;
      assert ms[0] == m && ms[1..] == more;
      assert value + [m.c] + Said(more) == value + ([m.c] + Said(more));
    }
  }

  // ----- one parameter -----

  lemma TokenChars(s: string)
    requires Token(s)
    ensures '=' !in s && ';' !in s && '"' !in s && Edgeless(s)
  {
  }

  lemma ValueEdges(v: Value)
    requires GoodValue(v)
    ensures ValueText(v) != "" && Edgeless(ValueText(v))
  {
    match v
    case Word(token) => TokenChars(token);
    case Quote(ms) =>
      var s := ValueText(v);
      assert s[0] == '"' && s[|s| - 1] == '"';
  }

  lemma CoreEdges(p: Param)
    requires GoodParam(p)
    ensures Core(p) != "" && Edgeless(Core(p))
  {
    ValueEdges(p.value);
    TokenChars(p.name);
    var s, v := Core(p), ValueText(p.value);
    assert s[0] == p.name[0] && s[|s| - 1] == v[|v| - 1];
  }

  /** What stands behind a value: nothing, or blanks and a semicolon; no blank at its end. */
  ghost predicate Follows(rest: string, t: string) {
    (rest == "" && t == "") ||
    (rest != "" && rest[0] == ';' && rest[|rest| - 1] !in " \t" && exists tail :: Spaces(tail) && t == tail + rest)
  }

  lemma QuoteReads(ms: seq<Mark>, rest: string, t: string)
    requires GoodMarks(ms) && Follows(rest, t)
    ensures ParameterValue(ValueText(Quote(ms)) + t) == Some((Said(ms), rest))
  {
    var s := ValueText(Quote(ms)) + t;
    var inner := MarksText(ms) + "\"" + t;
    hide Quoted, MarksText, Said;
    assert s[0] == '"' && s[1..] == inner;
    assert "" + Said(ms) == Said(ms);
    MarksRead(ms, t, inner, "", Said(ms));
    hide Quoted, Find, Trim, ValidName, Follows;
    FollowsTrims(rest, t);
  }

  lemma FollowsTrims(rest: string, t: string)
    requires Follows(rest, t)
    ensures Trim(t) == rest && (rest != "" ==> rest[0] == ';')
  {
    if rest == "" {
      TrimBetween("", "", "");
      assert "" + "" + "" == t;
    } else {
      var tail :| Spaces(tail) && t == tail + rest;
      assert tail + rest + "" == t;
      TrimBetween(tail, rest, "");
    }
  }

  lemma WordReads(token: string, rest: string, t: string)
    requires Token(token) && Follows(rest, t)
    ensures ParameterValue(token + t) == Some((token, rest))
  {
    var s := token + t;
    TokenChars(token);
    NameIsToken(token);
    assert s[0] == token[0];
    if rest == "" {
      assert s == token;
      FindAbsent(s, ';');
      assert "" + token + "" == token;
      TrimBetween("", token, "");
    } else {
      var tail :| Spaces(tail) && t == tail + rest;
      var front := token + tail;
      assert ';' !in front;
      assert s == front + [';'] + rest[1..];
      FindAfter(front, ';', rest[1..]);
      assert s[..|front|] == front && s[|front|..] == rest;
      assert "" + token + tail == front;
      TrimBetween("", token, tail);
    }
    hide Find, Trim, ValidName;
  }

  lemma ValueReads(v: Value, rest: string, t: string)
    requires GoodValue(v) && Follows(rest, t)
    ensures ParameterValue(ValueText(v) + t) == Some((ValueMeans(v), rest))
  {
    hide ParameterValue;
    match v
    case Word(token) => WordReads(token, rest, t);
    case Quote(ms) => QuoteReads(ms, rest, t);
  }

  // ----- lists of parameters -----

  /** The text of one or more parameters, without the semicolon in front of the first. */
  function JoinText(ps: seq<Param>): string
    requires ps != []
  {
    ParamText(ps[0]) + ParamsText(ps[1..])
  }

  /** The same parameters without the blanks at the very end. */
  function Trimless(ps: seq<Param>): (r: seq<Param>)
    requires ps != []
    ensures |r| == |ps|
  {
    ps[..|ps| - 1] + [ps[|ps| - 1].(tail := "")]
  }

  lemma TrimlessKeeps(ps: seq<Param>)
    requires ps != [] && GoodParams(ps)
    ensures GoodParams(Trimless(ps))
    ensures |ps| > 1 ==> Trimless(ps)[0] == ps[0] && Trimless(ps)[1..] == Trimless(ps[1..])
    ensures |ps| == 1 ==> Trimless(ps) == [ps[0].(tail := "")]
  {
    hide GoodParam;
    assert GoodParam(ps[|ps| - 1].(tail := "")) by { TailGone(ps[|ps| - 1]); }
    var r := Trimless(ps);
    assert forall k :: 0 <= k < |ps| - 1 ==> r[k] == ps[k];
  }

  lemma TailGone(p: Param)
    requires GoodParam(p)
    ensures GoodParam(p.(tail := ""))
  {
  }

  lemma {:induction false} MeanTrimless(ps: seq<Param>, values: map<string, string>)
    requires ps != [] && GoodParams(ps)
    ensures ParamsMean(Trimless(ps), values) == ParamsMean(ps, values)
    decreases |ps|
  {
    TrimlessKeeps(ps);
    if |ps| > 1 {
      hide GoodParam, Trimless;
      MeanTrimless(ps[1..], values[Folded(ps[0].name) := ValueMeans(ps[0].value)]);
    } else {
      var r := Trimless(ps);
      assert r[1..] == [] && ps[1..] == [] && r[0].name == ps[0].name && r[0].value == ps[0].value;
    }
  }

  lemma LastChar(a: string, b: string)
    requires b != ""
    ensures (a + b)[|a + b| - 1] == b[|b| - 1]
  {
  }

  /** Text that begins with a semicolon and has no blank at its end. */
  ghost predicate EndsWell(t: string) {
    t != "" && t[0] == ';' && t[|t| - 1] !in " \t"
  }

  lemma OneEnds(p: Param)
    requires GoodParam(p)
    ensures ParamsText([p]) == ParamsText([p.(tail := "")]) + p.tail && EndsWell(ParamsText([p.(tail := "")]))
  {
    CoreEdges(p);
    CoreSame(p);
    var core, q := Core(p), p.(tail := "");
    hide Core;
    assert [p][1..] == [] && [q][1..] == [];
    assert ParamsText([p]) == ";" + (p.pre + core + p.tail) + "";
    assert ParamsText([q]) == ";" + (p.pre + core + "") + "";
    assert ParamsText([q]) == (";" + p.pre) + core;
    LastChar(";" + p.pre, core);
  }

  lemma MoreEnds(first: string, rest: string, bare: string, tail: string, all: string, allBare: string)
    requires all == ";" + first + rest && allBare == ";" + first + bare && rest == bare + tail && EndsWell(bare)
    ensures all == allBare + tail && EndsWell(allBare)
  {
    LastChar(";" + first, bare);
  }

  /** Where the last blanks are, and what is left without them. */
  lemma {:induction false} ParamsEnd(ps: seq<Param>)
    requires ps != [] && GoodParams(ps)
    ensures ParamsText(ps) == ParamsText(Trimless(ps)) + ps[|ps| - 1].tail
    ensures EndsWell(ParamsText(Trimless(ps)))
    ensures ParamsText(Trimless(ps)) == ";" + JoinText(Trimless(ps))
    decreases |ps|
  {
    TrimlessKeeps(ps);
    var r := Trimless(ps);
    hide Trimless, GoodParam, ParamText, EndsWell;
    if |ps| == 1 {
      assert ps == [ps[0]];
      OneEnds(ps[0]);
    } else {
      ParamsEnd(ps[1..]);
      MoreEnds(ParamText(ps[0]), ParamsText(ps[1..]), ParamsText(r[1..]), ps[|ps| - 1].tail, ParamsText(ps), ParamsText(r));
    }
    SemicolonFirst(ParamText(r[0]), ParamsText(r[1..]));
  }

  lemma SemicolonFirst(a: string, b: string)
    ensures ";" + a + b == ";" + (a + b)
  {
  }

  lemma CoreSame(p: Param)
    ensures Core(p.(tail := "")) == Core(p)
  {
  }

  /** What stands behind the value of the first parameter once the last blanks are gone. */
  function Behind(ps: seq<Param>): string
    requires ps != []
  {
    if |ps| == 1 then "" else ps[0].tail + ParamsText(Trimless(ps[1..]))
  }

  function Later(ps: seq<Param>): string
    requires ps != []
  {
    if |ps| == 1 then "" else ParamsText(Trimless(ps[1..]))
  }

  lemma BehindFollows(ps: seq<Param>)
    requires ps != [] && GoodParams(ps)
    ensures Follows(Later(ps), Behind(ps))
  {
    if |ps| > 1 {
      assert GoodParam(ps[0]);
      assert GoodParams(ps[1..]);
      ParamsEnd(ps[1..]);
      hide Trimless, ParamsText;
    }
  }

  lemma TrimJoined(ps: seq<Param>)
    requires ps != [] && GoodParams(ps)
    ensures Trim(JoinText(ps)) == Core(ps[0]) + Behind(ps)
    ensures Edgeless(Core(ps[0]) + Behind(ps))
  {
    var p := ps[0];
    assert GoodParam(p);
    CoreEdges(p);
    var core, text := Core(p), Core(p) + Behind(ps);
    hide Core, Trim;
    if |ps| == 1 {
      assert text == core && ps[1..] == [];
      assert JoinText(ps) == p.pre + text + p.tail;
      TrimBetween(p.pre, text, p.tail);
    } else {
      assert GoodParams(ps[1..]) && GoodParam(ps[|ps| - 1]);
      ParamsEnd(ps[1..]);
      hide Trimless, ParamsText;
      Outer(p.pre, core, p.tail, ParamsText(Trimless(ps[1..])), ps[|ps| - 1].tail, JoinText(ps), text);
      TrimBetween(p.pre, text, ps[|ps| - 1].tail);
    }
  }

  lemma Outer(pre: string, core: string, gap: string, rest: string, tail: string, all: string, text: string)
    requires core != "" && Edgeless(core) && EndsWell(rest) && all == (pre + core + gap) + (rest + tail) && text == core + (gap + rest)
    ensures all == pre + text + tail && Edgeless(text)
  {
    assert text == (core + gap) + rest;
    LastChar(core + gap, rest);
    assert text[0] == core[0];
  }

  lemma FoldedToken(s: string)
    ensures Token(Folded(s)) <==> Token(s)
  {
    assert forall i :: 0 <= i < |s| ==> (TokenChar(Folded(s)[i]) <==> TokenChar(s[i]));
  }

  lemma CoreLayout(name: string, mid: string, post: string, v: string, t: string, text: string, front: string, back: string, equals: nat)
    requires text == (name + mid + "=" + post + v) + t && front == name + mid && back == post + (v + t) && equals == |name| + |mid|
    ensures text == front + ['='] + back && equals + 1 <= |text| && text[..equals] == front && text[equals + 1..] == back
    ensures "" + name + mid == front
  {
  }

  /** The name of a parameter, cut out. */
  lemma NameReads(p: Param, t: string, text: string, equals: nat)
    requires GoodParam(p) && text == Core(p) + t && equals == |p.name| + |p.mid|
    ensures Find(text, "=", 0) == Some(equals) && equals + 1 <= |text|
    ensures Lower(Trim(text[..equals])) == Folded(p.name) && ValidName(Folded(p.name))
    ensures text[equals + 1..] == p.post + (ValueText(p.value) + t)
  {
    TokenChars(p.name);
    var front, back := p.name + p.mid, p.post + (ValueText(p.value) + t);
    assert '=' !in front;
    hide ValueText, Find, Trim, Lower, ValidName, Token;
    CoreLayout(p.name, p.mid, p.post, ValueText(p.value), t, text, front, back, equals);
    FindAfter(front, '=', back);
    TrimBetween("", p.name, p.mid);
    LowerFolds(p.name);
    FoldedToken(p.name);
    NameIsToken(Folded(p.name));
  }

  lemma ValueTrimmed(p: Param, rest: string, t: string)
    requires GoodParam(p) && Follows(rest, t)
    ensures Trim(p.post + (ValueText(p.value) + t)) == ValueText(p.value) + t
  {
    ValueEdges(p.value);
    var v := ValueText(p.value) + t;
    assert v[0] == ValueText(p.value)[0];
    hide ValueText, Trim;
    if rest != "" {
      var tail :| Spaces(tail) && t == tail + rest;
      assert v == (ValueText(p.value) + tail) + rest;
      LastChar(ValueText(p.value) + tail, rest);
    } else {
      assert v == ValueText(p.value);
    }
    assert p.post + v + "" == p.post + v;
    TrimBetween(p.post, v, "");
  }

  /** One round of the parser. */
  lemma ParametersStep(input: string, values: map<string, string>, text: string, equals: nat, name: string, value: string, rest: string)
    requires Trim(input) == text && text != "" && Find(text, "=", 0) == Some(equals) && equals + 1 <= |text|
    requires Lower(Trim(text[..equals])) == name && ValidName(name)
    requires ParameterValue(Trim(text[equals + 1..])) == Some((value, rest))
    requires rest != "" ==> Trim(rest[1..]) != ""
    ensures ParametersFrom(input, values) ==
            if name in values then None
            else if rest == "" then Some(values[name := value])
            else ParametersFrom(rest[1..], values[name := value])
  {
    hide Find, Trim, Lower, ValidName, ParameterValue;
  }

  lemma FirstParam(ps: seq<Param>, values: map<string, string>)
    requires ps != [] && GoodParams(ps)
    ensures var name, value := Folded(ps[0].name), ValueMeans(ps[0].value);
            ParametersFrom(JoinText(ps), values) ==
            if name in values then None
            else if |ps| == 1 then Some(values[name := value])
            else ParametersFrom(JoinText(Trimless(ps[1..])), values[name := value])
  {
    var p, t, rest := ps[0], Behind(ps), Later(ps);
    var text, equals := Core(ps[0]) + Behind(ps), |ps[0].name| + |ps[0].mid|;
    assert GoodParam(p);
    CoreEdges(p);
    TrimJoined(ps);
    BehindFollows(ps);
    NameReads(p, t, text, equals);
    ValueTrimmed(p, rest, t);
    ValueReads(p.value, rest, t);
    if |ps| > 1 {
      assert GoodParams(ps[1..]);
      ParamsEnd(ps[1..]);
      TrimlessKeeps(ps[1..]);
      TrimJoined(Trimless(ps[1..]));
      assert GoodParam(Trimless(ps[1..])[0]);
      CoreEdges(Trimless(ps[1..])[0]);
      assert rest[1..] == JoinText(Trimless(ps[1..]));
    }
    hide ParametersFrom, Core, ValueText, Find, Trim, Lower, ValidName, ParameterValue, JoinText, Behind, Trimless, ParamsText, Follows, GoodParam;
    ParametersStep(JoinText(ps), values, text, equals, Folded(p.name), ValueMeans(p.value), rest);
  }

  lemma {:induction false} ParamsRead(ps: seq<Param>, values: map<string, string>)
    requires ps != [] && GoodParams(ps)
    ensures ParametersFrom(JoinText(ps), values) == ParamsMean(ps, values)
    decreases |ps|
  {
    hide ParametersFrom, JoinText, GoodParam, Trimless;
    FirstParam(ps, values);
    if |ps| > 1 {
      var more := values[Folded(ps[0].name) := ValueMeans(ps[0].value)];
      assert GoodParams(ps[1..]);
      TrimlessKeeps(ps[1..]);
      MeanTrimless(ps[1..], more);
      if Folded(ps[0].name) !in values {
        ParamsRead(Trimless(ps[1..]), more);
      }
    } else {
      assert ps[1..] == [];
    }
  }

  // ----- the converse -----

  lemma {:induction false} LeftSplit(s: string) returns (a: string)
    ensures Spaces(a) && s == a + TrimLeft(s) && (TrimLeft(s) != "" ==> TrimLeft(s)[0] !in " \t")
  {
    if s != "" && IsBlank(s[0]) {
      var rest := LeftSplit(s[1..]);
      a := [s[0]] + rest;
      assert s == [s[0]] + s[1..];
    } else {
      a := "";
      assert s == "" + s;
    }
  }

  lemma {:induction false} RightSplit(s: string) returns (b: string)
    ensures Spaces(b) && s == TrimRight(s) + b && (TrimRight(s) != "" ==> TrimRight(s)[|TrimRight(s)| - 1] !in " \t")
    decreases |s|
  {
    if s != "" && IsBlank(s[|s| - 1]) {
      var rest := RightSplit(s[..|s| - 1]);
      b := rest + [s[|s| - 1]];
      assert s == s[..|s| - 1] + [s[|s| - 1]];
    } else {
      b := "";
      assert s == s + "";
    }
  }

  lemma TrimSplit(s: string) returns (a: string, b: string)
    ensures Spaces(a) && Spaces(b) && Edgeless(Trim(s)) && s == a + Trim(s) + b
  {
    a := LeftSplit(s);
    b := RightSplit(TrimLeft(s));
    assert TrimLeft(s) == Trim(s) + b;
    assert Trim(s) != "" ==> Trim(s)[0] == TrimLeft(s)[0];
    hide Trim, TrimLeft;
    assert a + (Trim(s) + b) == a + Trim(s) + b;
  }

  /** The value at the front of s, between blanks. */
  ghost predicate ValueAt(s: string, v: Value, lead: string, gap: string, rest: string, tail: string) {
    GoodValue(v) && Spaces(lead) && Spaces(gap) && Spaces(tail) && s == lead + ValueText(v) + gap + rest + tail
  }

  lemma QuoteFound(s: string) returns (v: Value, gap: string, tail: string)
    requires s != "" && s[0] == '"' && ParameterValue(s).Some?
    ensures ValueAt(s, v, "", gap, ParameterValue(s).value.1, tail) && ValueMeans(v) == ParameterValue(s).value.0
    ensures ParameterValue(s).value.1 != "" ==> ParameterValue(s).value.1[0] == ';'
  {
    var ms := MarksFound(s[1..], "");
    var after := Quoted(s[1..], "").value.1;
    gap, tail := TrimSplit(after);
    v := Quote(ms);
    assert "" + Said(ms) == Said(ms);
    hide Quoted, Trim, Find, ValidName, MarksText, Said, GoodMarks;
    var rest := ParameterValue(s).value.1;
    assert rest == Trim(after);
    assert s == "\"" + s[1..];
    QuoteLayout(s, MarksText(ms), after, gap, rest, tail);
  }

  lemma QuoteLayout(s: string, marks: string, after: string, gap: string, rest: string, tail: string)
    requires s == "\"" + (marks + "\"" + after) && after == gap + rest + tail
    ensures s == "" + ("\"" + marks + "\"") + gap + rest + tail
  {
  }

  lemma WordFound(s: string) returns (v: Value, lead: string, gap: string)
    requires !(s != "" && s[0] == '"') && ParameterValue(s).Some?
    ensures ValueAt(s, v, lead, gap, ParameterValue(s).value.1, "") && ValueMeans(v) == ParameterValue(s).value.0
    ensures ParameterValue(s).value.1 != "" ==> ParameterValue(s).value.1[0] == ';'
  {
    var end := Find(s, ";", 0);
    var front := if end.None? then s else s[..end.value];
    var rest := ParameterValue(s).value.1;
    lead, gap := TrimSplit(front);
    v := Word(Trim(front));
    NameIsToken(Trim(front));
    if end.Some? {
      FindFirst(s, ";", 0);
      CharAt(s, ';', end.value);
    }
    hide Find, Trim, ValidName;
    assert s == front + rest;
    assert s == lead + Trim(front) + gap + rest + "";
  }

  lemma ValueFound(s: string) returns (v: Value, lead: string, gap: string, tail: string)
    requires ParameterValue(s).Some?
    ensures ValueAt(s, v, lead, gap, ParameterValue(s).value.1, tail) && ValueMeans(v) == ParameterValue(s).value.0
    ensures ParameterValue(s).value.1 != "" ==> ParameterValue(s).value.1[0] == ';'
  {
    hide ParameterValue, ValueAt;
    if s != "" && s[0] == '"' {
      lead := "";
      v, gap, tail := QuoteFound(s);
    } else {
      tail := "";
      v, lead, gap := WordFound(s);
    }
  }

  /** What the parser found at the front of its input. */
  lemma ParametersOk(input: string, values: map<string, string>)
    requires ParametersFrom(input, values).Some? && Trim(input) != ""
    ensures var text := Trim(input); var equals := Find(text, "=", 0);
            && equals.Some? && equals.value + 1 <= |text|
            && var name := Lower(Trim(text[..equals.value])); var read := ParameterValue(Trim(text[equals.value + 1..]));
               && ValidName(name) && read.Some? && name !in values
               && var (value, rest) := read.value;
                  && |rest| < |input|
                  && (rest != "" ==> Trim(rest[1..]) != "")
                  && ParametersFrom(input, values) ==
                     if rest == "" then Some(values[name := value]) else ParametersFrom(rest[1..], values[name := value])
  {
    hide Find, Trim, Lower, ValidName, ParameterValue;
  }

  lemma EqualsAt(text: string, equals: nat)
    requires Find(text, "=", 0) == Some(equals)
    ensures equals < |text| && text == text[..equals] + "=" + text[equals + 1..]
  {
    FoundChar(text, '=', equals);
    SplitAt(text, equals);
  }

  lemma FoundChar(s: string, c: char, i: nat)
    requires Find(s, [c], 0) == Some(i)
    ensures i < |s| && s[i] == c
  {
    hide Find, At;
    FindFirst(s, [c], 0);
    CharAt(s, c, i);
  }

  lemma SplitAt(s: string, i: nat)
    requires i < |s|
    ensures s == s[..i] + [s[i]] + s[i + 1..]
  {
  }

  /** The input is this parameter, what stands behind it, and blanks. */
  ghost predicate Fronted(input: string, p: Param, rest: string, end: string) {
    GoodParam(p) && Spaces(end) && input == ParamText(p) + rest + end
  }

  lemma Build(input: string, text: string, a: string, b: string, front: string, x: string, name: string, y: string,
              back: string, post: string, z: string, value: string, v: Value, lead: string, gap: string, rest: string, tail: string)
    requires Spaces(a) && Spaces(b) && input == a + text + b && text == front + "=" + back
    requires Spaces(x) && Spaces(y) && front == x + name + y && Token(name)
    requires Spaces(post) && Spaces(z) && back == post + value + z && ValueAt(value, v, lead, gap, rest, tail)
    ensures Fronted(input, Param(a + x, name, y, post + lead, v, gap), rest, tail + z + b)
  {
    hide ValueText, Token, GoodValue;
    ParamLayout(a, x, name, y, post, lead, ValueText(v), gap, rest, tail, z, b);
  }

  lemma NameFound(front: string)
    requires ValidName(Lower(Trim(front)))
    ensures Token(Trim(front)) && Lower(Trim(front)) == Folded(Trim(front))
  {
    hide ValidName, Lower, Trim;
    LowerFolds(Trim(front));
    NameIsToken(Folded(Trim(front)));
    FoldedToken(Trim(front));
  }

  /** The first parameter of the input and what stands behind it, down to the last blank. */
  lemma ParamFound(input: string, values: map<string, string>) returns (p: Param, rest: string, end: string)
    requires ParametersFrom(input, values).Some? && Trim(input) != ""
    ensures Fronted(input, p, rest, end) && Folded(p.name) !in values && |rest| < |input|
    ensures rest != "" ==> rest[0] == ';' && Trim(rest[1..]) != ""
    ensures var more := values[Folded(p.name) := ValueMeans(p.value)];
            ParametersFrom(input, values) == if rest == "" then Some(more) else ParametersFrom(rest[1..], more)
  {
    ParametersOk(input, values);
    hide ParametersFrom, ParameterValue, Find, Trim, Lower, ValidName, ValueAt, Fronted, Token;
    var text := Trim(input);
    var equals := Find(text, "=", 0).value;
    EqualsAt(text, equals);
    var front, back := text[..equals], text[equals + 1..];
    var a, b := TrimSplit(input);
    var x, y := TrimSplit(front);
    var post, z := TrimSplit(back);
    var v, lead, gap, tail := ValueFound(Trim(back));
    rest := ParameterValue(Trim(back)).value.1;
    NameFound(front);
    Build(input, text, a, b, front, x, Trim(front), y, back, post, z, Trim(back), v, lead, gap, rest, tail);
    p, end := Param(a + x, Trim(front), y, post + lead, v, gap), tail + z + b;
  }

  lemma ParamLayout(a: string, x: string, name: string, y: string, post: string, lead: string, v: string, gap: string, rest: string,
                    tail: string, z: string, b: string)
    ensures a + ((x + name + y) + "=" + (post + (lead + v + gap + rest + tail) + z)) + b
         == (a + x) + (name + y + "=" + (post + lead) + v) + gap + rest + (tail + z + b)
  {
    var core := name + y + "=" + (post + lead) + v;
    assert (x + name + y) + "=" + (post + (lead + v + gap + rest + tail) + z) == x + (core + (gap + (rest + (tail + z))));
    assert a + (x + (core + (gap + (rest + (tail + z))))) + b == (a + x) + core + gap + rest + (tail + z + b);
  }

  /** More blanks at the very end. */
  function Extended(ps: seq<Param>, w: string): (r: seq<Param>)
    requires ps != []
    ensures |r| == |ps|
  {
    ps[..|ps| - 1] + [ps[|ps| - 1].(tail := ps[|ps| - 1].tail + w)]
  }

  lemma {:induction false} ExtendedIs(ps: seq<Param>, w: string, values: map<string, string>)
    requires ps != [] && GoodParams(ps) && Spaces(w)
    ensures GoodParams(Extended(ps, w)) && ParamsMean(Extended(ps, w), values) == ParamsMean(ps, values)
    ensures JoinText(Extended(ps, w)) == JoinText(ps) + w
    decreases |ps|
  {
    var r := Extended(ps, w);
    assert GoodParam(ps[0]);
    if |ps| == 1 {
      assert r == [ps[0].(tail := ps[0].tail + w)] && r[1..] == [] && ps[1..] == [];
      assert Core(r[0]) == Core(ps[0]);
    } else {
      assert r[0] == ps[0] && r[1..] == Extended(ps[1..], w);
      hide Extended, GoodParam, ParamText;
      ExtendedIs(ps[1..], w, values[Folded(ps[0].name) := ValueMeans(ps[0].value)]);
      ParamsJoin(ps[1..]);
      ParamsJoin(r[1..]);
      assert forall k :: 1 <= k < |r| ==> r[k] == r[1..][k - 1];
      hide JoinText;
      ExtendText(ParamText(ps[0]), JoinText(ps[1..]), w);
      JoinIs(ps);
      JoinIs(r);
    }
  }

  lemma ParamsJoin(ps: seq<Param>)
    requires ps != []
    ensures ParamsText(ps) == ";" + JoinText(ps)
  {
    SemicolonFirst(ParamText(ps[0]), ParamsText(ps[1..]));
  }

  lemma JoinIs(ps: seq<Param>)
    requires ps != []
    ensures JoinText(ps) == ParamText(ps[0]) + ParamsText(ps[1..])
  {
  }

  lemma ExtendText(first: string, rest: string, w: string)
    ensures first + (";" + (rest + w)) == (first + (";" + rest)) + w
  {
  }

  /** The text is this list of parameters, with these values. */
  ghost predicate ParamsHold(input: string, ps: seq<Param>, values: map<string, string>, all: map<string, string>) {
    ps != [] && GoodParams(ps) && input == JoinText(ps) && ParamsMean(ps, values) == Some(all)
  }

  lemma LastParam(input: string, p: Param, end: string, values: map<string, string>)
    requires Fronted(input, p, "", end) && Folded(p.name) !in values
    ensures ParamsHold(input, [p.(tail := p.tail + end)], values, values[Folded(p.name) := ValueMeans(p.value)])
  {
    var q := p.(tail := p.tail + end);
    assert Core(q) == Core(p) && GoodParam(q);
    assert [q][0] == q && [q][1..] == [];
    assert ParamsText([]) == "";
    assert ParamsMean([q], values) == ParamsMean([], values[Folded(q.name) := ValueMeans(q.value)]);
    hide Core, GoodParam;
    assert input == ParamText(q);
    assert JoinText([q]) == ParamText(q) + "" == ParamText(q);
  }

  lemma MoreParams(input: string, p: Param, rest: string, end: string, ps: seq<Param>, values: map<string, string>, all: map<string, string>)
    requires Fronted(input, p, rest, end) && rest != "" && rest[0] == ';' && Folded(p.name) !in values
    requires ParamsHold(rest[1..], ps, values[Folded(p.name) := ValueMeans(p.value)], all)
    ensures ParamsHold(input, [p] + Extended(ps, end), values, all)
  {
    var more, values' := Extended(ps, end), values[Folded(p.name) := ValueMeans(p.value)];
    ExtendedIs(ps, end, values');
    ParamsJoin(more);
    hide Extended, GoodParam, ParamText, ParamsText;
    Prepended(p, more, values, all);
    JoinIs([p] + more);
    MoreText(input, ParamText(p), rest, rest[1..], end);
    hide JoinText;
  }

  lemma Prepended(p: Param, more: seq<Param>, values: map<string, string>, all: map<string, string>)
    requires GoodParam(p) && GoodParams(more) && Folded(p.name) !in values
    requires ParamsMean(more, values[Folded(p.name) := ValueMeans(p.value)]) == Some(all)
    ensures var both := [p] + more;
            both[0] == p && both[1..] == more && GoodParams(both) && ParamsMean(both, values) == Some(all)
  {
    hide GoodParam;
    var both := [p] + more;
    assert both[0] == p && both[1..] == more;
    assert forall k :: 1 <= k < |both| ==> both[k] == more[k - 1];
  }

  lemma MoreText(input: string, first: string, rest: string, later: string, end: string)
    requires input == first + rest + end && rest != "" && rest[0] == ';' && later == rest[1..]
    ensures input == first + (";" + (later + end))
  {
    assert rest == ";" + later;
  }

  lemma {:induction false} ParamsFound(input: string, values: map<string, string>) returns (ps: seq<Param>)
    requires ParametersFrom(input, values).Some? && Trim(input) != ""
    ensures ps != [] && ParamsHold(input, ps, values, ParametersFrom(input, values).value)
    decreases |input|
  {
    hide ParametersFrom, Trim, ParamsHold, Fronted;
    var p, rest, end := ParamFound(input, values);
    if rest == "" {
      ps := [p.(tail := p.tail + end)];
      LastParam(input, p, end, values);
    } else {
      var more := values[Folded(p.name) := ValueMeans(p.value)];
      var later := ParamsFound(rest[1..], more);
      ps := [p] + Extended(later, end);
      MoreParams(input, p, rest, end, later, values, ParametersFrom(rest[1..], more).value);
    }
  }

  // ----- the whole field -----

  /** A first word between blanks, then parameters, or a semicolon with nothing behind it. */
  datatype Doc = Doc(before: string, kind: string, after: string, params: seq<Param>, dangling: Option<string>)

  predicate GoodDoc(d: Doc) {
    && Spaces(d.before) && Edgeless(d.kind) && ';' !in d.kind && Spaces(d.after) && GoodParams(d.params)
    && (d.dangling.Some? ==> d.params == [] && Spaces(d.dangling.value))
  }

  function DocText(d: Doc): string {
    d.before + d.kind + d.after + (if d.dangling.Some? then ";" + d.dangling.value else ParamsText(d.params))
  }

  function DocMeans(d: Doc): Option<Parameters> {
    match ParamsMean(d.params, map[])
    case None => None
    case Some(values) => Some(Parameters(Folded(d.kind), values))
  }

  ghost function WithKind(kind: string, values: Option<map<string, string>>): Option<Parameters> {
    if values.None? then None else Some(Parameters(kind, values.value))
  }

  lemma KindReads(front: string, kind: string, rest: string, s: string)
    requires ';' !in front && Lower(Trim(front)) == kind && s == front + ";" + rest
    ensures ParseParameters(s) == WithKind(kind, ParametersFrom(rest, map[]))
  {
    assert s == front + [';'] + rest;
    FindAfter(front, ';', rest);
    assert s[..|front|] == front && s[|front| + 1..] == rest;
    hide Find, Trim, Lower, ParametersFrom;
  }

  lemma BlankParameters(gap: string, values: map<string, string>)
    requires Spaces(gap)
    ensures ParametersFrom(gap, values) == Some(values)
  {
    assert "" + "" + gap == gap;
    TrimBetween("", "", gap);
  }

  lemma DocReads(d: Doc)
    requires GoodDoc(d)
    ensures ParseParameters(DocText(d)) == DocMeans(d)
  {
    var front, s := d.before + d.kind + d.after, DocText(d);
    assert ';' !in front;
    TrimBetween(d.before, d.kind, d.after);
    LowerFolds(d.kind);
    if d.dangling.Some? {
      var gap := d.dangling.value;
      assert s == front + ";" + gap;
      KindReads(front, Folded(d.kind), gap, s);
      BlankParameters(gap, map[]);
    } else if d.params != [] {
      ParamsJoin(d.params);
      var rest := JoinText(d.params);
      assert s == front + ";" + rest;
      KindReads(front, Folded(d.kind), rest, s);
      ParamsRead(d.params, map[]);
    } else {
      assert s == front;
      FindAbsent(s, ';');
    }
    hide Trim, Lower, Find, ParametersFrom, ParseParameters;
  }

  lemma PlainDoc(s: string, front: string, kind: string, a: string, b: string)
    requires Spaces(a) && Spaces(b) && Edgeless(kind) && ';' !in kind && front == a + kind + b && s == front
    ensures GoodDoc(Doc(a, kind, b, [], None)) && s == DocText(Doc(a, kind, b, [], None))
  {
    assert front + "" == s;
  }

  lemma DanglingDoc(s: string, front: string, kind: string, a: string, b: string, rest: string)
    requires Spaces(a) && Spaces(b) && Edgeless(kind) && ';' !in kind && front == a + kind + b && s == front + ";" + rest && Spaces(rest)
    ensures GoodDoc(Doc(a, kind, b, [], Some(rest))) && s == DocText(Doc(a, kind, b, [], Some(rest)))
  {
    assert s == front + (";" + rest);
  }

  lemma ParamsDoc(s: string, front: string, kind: string, a: string, b: string, rest: string, ps: seq<Param>)
    requires Spaces(a) && Spaces(b) && Edgeless(kind) && ';' !in kind && front == a + kind + b && s == front + ";" + rest
    requires ps != [] && GoodParams(ps) && rest == JoinText(ps)
    ensures GoodDoc(Doc(a, kind, b, ps, None)) && s == DocText(Doc(a, kind, b, ps, None))
  {
    ParamsJoin(ps);
    hide JoinText, ParamsText, GoodParams;
    assert s == front + (";" + rest);
  }

  lemma DocFound(s: string) returns (d: Doc)
    requires ParseParameters(s).Some?
    ensures GoodDoc(d) && s == DocText(d)
  {
    var semicolon := Find(s, ";", 0);
    var front := if semicolon.None? then s else s[..semicolon.value];
    var kind := Trim(front);
    assert semicolon.Some? ==> ParametersFrom(s[semicolon.value + 1..], map[]).Some?;
    hide Find, Trim, ParseParameters, ParametersFrom, GoodDoc, DocText, Spaces, Edgeless, ParamsHold;
    NoSemicolon(s);
    var a, b := TrimSplit(front);
    if semicolon.None? {
      d := Doc(a, kind, b, [], None);
      PlainDoc(s, front, kind, a, b);
    } else {
      var rest := s[semicolon.value + 1..];
      if Trim(rest) == "" {
        AllBlank(rest);
        d := Doc(a, kind, b, [], Some(rest));
        DanglingDoc(s, front, kind, a, b, rest);
      } else {
        var ps := ParamsFound(rest, map[]);
        d := Doc(a, kind, b, ps, None);
        HoldsText(rest, ps, map[], ParametersFrom(rest, map[]).value);
        ParamsDoc(s, front, kind, a, b, rest, ps);
      }
    }
  }

  lemma AllBlank(s: string)
    requires Trim(s) == ""
    ensures Spaces(s)
  {
    var x, y := TrimSplit(s);
    assert s == x + y;
  }

  lemma HoldsText(input: string, ps: seq<Param>, values: map<string, string>, all: map<string, string>)
    requires ParamsHold(input, ps, values, all)
    ensures ps != [] && GoodParams(ps) && input == JoinText(ps)
  {
  }

  lemma NoSemicolon(s: string)
    ensures var semicolon := Find(s, ";", 0);
            var front := if semicolon.None? then s else s[..semicolon.value];
            ';' !in front && ';' !in Trim(front) && (semicolon.Some? ==> s == front + ";" + s[semicolon.value + 1..])
  {
    FindFirst(s, ";", 0);
    var semicolon := Find(s, ";", 0);
    var front := if semicolon.None? then s else s[..semicolon.value];
    if semicolon.Some? {
      CharAt(s, ';', semicolon.value);
      assert s == front + [s[semicolon.value]] + s[semicolon.value + 1..];
    }
    forall i | 0 <= i < |front| ensures front[i] != ';' {
      assert !At(s, ";", i);
      assert s[i..i + 1] == [s[i]];
    }
    var a, b := TrimSplit(front);
    hide Find, Trim;
    assert forall i :: 0 <= i < |Trim(front)| ==> Trim(front)[i] == front[|a| + i];
  }

  /** PARAMETERS EXACTLY.  A field is read as a word and its parameters if and only if it is such a word with such
      parameters as the grammar writes them. */
  lemma ParametersExactly(s: string, r: Parameters)
    ensures ParseParameters(s) == Some(r) <==> exists d :: GoodDoc(d) && s == DocText(d) && DocMeans(d) == Some(r)
  {
    hide ParseParameters, GoodDoc, DocText, DocMeans;
    if ParseParameters(s) == Some(r) {
      var d := DocFound(s);
      DocReads(d);
    }
    if d :| GoodDoc(d) && s == DocText(d) && DocMeans(d) == Some(r) {
      DocReads(d);
    }
  }
}
