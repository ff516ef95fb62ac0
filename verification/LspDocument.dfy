/** Incremental synchronisation: an open document follows the editor's text through any sequence of
    changes, each given in the editor's positions of the text at that moment. */
module LspDocument {
  import opened Text
  import opened LspPositions

  datatype Change = Whole(text: string) | Ranged(start: Position, end: Position, text: string)

  datatype Doc = Doc(text: string, version: int)

  function Replaced(text: string, begin: nat, end: nat, inserted: string): string
    requires begin <= end <= |text|
  {
    text[..begin] + inserted + text[end..]
  }

  /** One entry of contentChanges; None stands for a thrown error. */
  function Apply(text: string, c: Change): Option<string> {
    match c
    case Whole(t) => Some(t)
    case Ranged(start, end, t) =>
      var b, e := OffsetOf(text, start), OffsetOf(text, end);
      if b.None? || e.None? || e.value < b.value then None
      else Some(Replaced(text, b.value, e.value, t))
  }

  function ApplyAll(text: string, changes: seq<Change>): Option<string>
    decreases |changes|
  {
    if changes == [] then Some(text)
    else match Apply(text, changes[0])
      case None => None
      case Some(next) => ApplyAll(next, changes[1..])
  }

  /** didChange: a stale version is ignored, and a failing list of changes leaves the document alone. */
  function DidChange(d: Doc, version: int, changes: seq<Change>): Doc {
    if version <= d.version then d
    else match ApplyAll(d.text, changes)
      case None => d
      case Some(text) => Doc(text, version)
  }

  // ----- the editor's side -----

  /** What the editor does to its own text, by byte offset. */
  datatype Edit = Reload(text: string) | Replace(begin: nat, end: nat, text: string)

  /** The offset survives the trip through editor positions. */
  ghost predicate Addressable(text: string, o: nat) {
    Boundary(text, o) && '\r' !in text[LineBegin(text, o)..o]
  }

  ghost predicate Allowed(text: string, e: Edit) {
    match e
    case Reload(t) => Utf8(t, 0)
    case Replace(begin, end, t) =>
      begin <= end && Addressable(text, begin) && Addressable(text, end) && Utf8(t, 0)
  }

  function Edited(text: string, e: Edit): string {
    match e
    case Reload(t) => t
    case Replace(begin, end, t) => if begin <= end <= |text| then Replaced(text, begin, end, t) else text
  }

  function EditedAll(text: string, edits: seq<Edit>): string
    decreases |edits|
  {
    if edits == [] then text else EditedAll(Edited(text, edits[0]), edits[1..])
  }

  ghost predicate AllowedAll(text: string, edits: seq<Edit>)
    decreases |edits|
  {
    edits == [] || (Allowed(text, edits[0]) && AllowedAll(Edited(text, edits[0]), edits[1..]))
  }

  /** The notification's entry for an edit. */
  function Reported(text: string, e: Edit): Change {
    match e
    case Reload(t) => Whole(t)
    case Replace(begin, end, t) => Ranged(PositionAt(text, begin), PositionAt(text, end), t)
  }

  function ReportedAll(text: string, edits: seq<Edit>): seq<Change>
    decreases |edits|
  {
    if edits == [] then [] else [Reported(text, edits[0])] + ReportedAll(Edited(text, edits[0]), edits[1..])
  }

  // ----- UTF-8 texts stay UTF-8 -----

  lemma {:induction false} Utf8Shift(a: string, b: string, j: nat)
    requires j <= |b|
    ensures Utf8(a + b, |a| + j) <==> Utf8(b, j)
    decreases |b| - j
  {
    var t := a + b;
    if j < |b| {
      var w := Width(b[j]);
      assert t[|a| + j] == b[j];
      if j + w <= |b| {
        Utf8Shift(a, b, j + w);
        assert (forall k :: j < k < j + w ==> Continuation(b[k]))
          <==> (forall k :: |a| + j < k < |a| + j + w ==> Continuation(t[k])) by {
          forall k | j < k < j + w ensures b[k] == t[|a| + k] {
          }
          forall k | |a| + j < k < |a| + j + w ensures t[k] == b[k - |a|] {
          }
        }
      }
    }
  }

  lemma {:induction false} Utf8Concat(a: string, b: string, i: nat)
    requires i <= |a| && Utf8(a, i) && Utf8(b, 0)
    ensures Utf8(a + b, i)
    decreases |a| - i
  {
    if i == |a| {
      Utf8Shift(a, b, 0);
    } else {
      Utf8Concat(a, b, i + Width(a[i]));
    }
  }

  lemma {:induction false} Utf8Cut(text: string, i: nat, o: nat)
    requires i <= o <= |text| && Utf8(text, i) && Reaches(text, i, o)
    ensures Utf8(text[..o], i) && Utf8(text[o..], 0)
    decreases |text| - i
  {
    if i == o {
      assert text == text[..o] + text[o..];
      Utf8Shift(text[..o], text[o..], 0);
    } else {
      CharacterBytes(text, i);
      ReachesAtMost(text, Next(text, i), o);
      Utf8Cut(text, Next(text, i), o);
    }
  }

  lemma EditKeepsUtf8(text: string, e: Edit)
    requires Utf8(text, 0) && Allowed(text, e)
    ensures Utf8(Edited(text, e), 0)
  {
    if e.Replace? {
      Utf8Cut(text, 0, e.begin);
      Utf8Cut(text, 0, e.end);
      Utf8Concat(text[..e.begin], e.text, 0);
      Utf8Concat(text[..e.begin] + e.text, text[e.end..], 0);
    }
  }

  // ----- the document follows the editor -----

  /** One change replaces exactly the bytes the editor meant. */
  lemma ChangeIsExact(text: string, e: Edit)
    requires Utf8(text, 0) && Allowed(text, e)
    ensures Apply(text, Reported(text, e)) == Some(Edited(text, e))
  {
    if e.Replace? {
      RoundTrip(text, e.begin);
      RoundTrip(text, e.end);
    }
  }

  /** The condition on carriage returns is exact: the server resolves the reported range to the
      editor's own offsets if and only if neither end has one earlier on its line. */
  lemma RangeResolves(text: string, begin: nat, end: nat)
    requires Utf8(text, 0) && begin <= end && Boundary(text, begin) && Boundary(text, end)
    ensures var c := Reported(text, Replace(begin, end, ""));
            (OffsetOf(text, c.start) == Some(begin) && OffsetOf(text, c.end) == Some(end))
            <==> Addressable(text, begin) && Addressable(text, end)
  {
    RoundTrip(text, begin);
    RoundTrip(text, end);
  }

  /** SYNCHRONISATION.  Any list of edits, each addressed in the text left by the one before, is applied
      without error and leaves the editor's text, still UTF-8. */
  lemma {:induction false} FollowsEdits(text: string, edits: seq<Edit>)
    requires Utf8(text, 0) && AllowedAll(text, edits)
    ensures ApplyAll(text, ReportedAll(text, edits)) == Some(EditedAll(text, edits))
    ensures Utf8(EditedAll(text, edits), 0)
    decreases |edits|
  {
    if edits != [] {
      ChangeIsExact(text, edits[0]);
      EditKeepsUtf8(text, edits[0]);
      hide Apply, Reported, Edited, Allowed, Utf8;
      var next := Edited(text, edits[0]);
      FollowsEdits(next, edits[1..]);
      var changes := ReportedAll(text, edits);
      assert changes[0] == Reported(text, edits[0]) && changes[1..] == ReportedAll(next, edits[1..]);
    }
  }

  /** The editor's copy of an open document. */
  datatype Editor = Editor(text: string, version: int)

  /** What the editor sends: its edits under any later version, or something stale. */
  datatype Notice = Fresh(version: int, edits: seq<Edit>) | Stale(version: int, changes: seq<Change>)

  ghost predicate Legal(ed: Editor, notices: seq<Notice>)
    decreases |notices|
  {
    notices == [] ||
    (&& (match notices[0]
         case Fresh(version, edits) => version > ed.version && AllowedAll(ed.text, edits)
         case Stale(version, _) => version <= ed.version)
     && Legal(After(ed, notices[0]), notices[1..]))
  }

  /** The editor's side of a notice. */
  function After(ed: Editor, n: Notice): Editor {
    match n
    case Fresh(version, edits) => Editor(EditedAll(ed.text, edits), version)
    case Stale(_, _) => ed
  }

  /** The server's side: the changes are computed in the editor, from the editor's text. */
  function Notified(d: Doc, ed: Editor, n: Notice): Doc {
    match n
    case Fresh(version, edits) => DidChange(d, version, ReportedAll(ed.text, edits))
    case Stale(version, changes) => DidChange(d, version, changes)
  }

  function EditorAfter(ed: Editor, notices: seq<Notice>): Editor
    decreases |notices|
  {
    if notices == [] then ed else EditorAfter(After(ed, notices[0]), notices[1..])
  }

  function Served(d: Doc, ed: Editor, notices: seq<Notice>): Doc
    decreases |notices|
  {
    if notices == [] then d else Served(Notified(d, ed, notices[0]), After(ed, notices[0]), notices[1..])
  }

  /** SESSIONS.  A server that starts with the editor's text has the editor's text, under its version, after
      every session of fresh and stale notifications. */
  lemma {:induction false} SessionInStep(d: Doc, ed: Editor, notices: seq<Notice>)
    requires Utf8(ed.text, 0) && Legal(ed, notices)
    requires d.text == ed.text && d.version == ed.version
    ensures var served, edited := Served(d, ed, notices), EditorAfter(ed, notices);
            served.text == edited.text && served.version == edited.version
    decreases |notices|
  {
    if notices != [] {
      var n := notices[0];
      if n.Fresh? {
        FollowsEdits(ed.text, n.edits);
      }
      hide ApplyAll, ReportedAll, EditedAll, AllowedAll, Utf8;
      SessionInStep(Notified(d, ed, n), After(ed, n), notices[1..]);
    }
  }

  /** With Windows line ends only, every boundary but the one inside a line end is addressable. */
  lemma WindowsLineEnds(text: string, o: nat)
    requires Boundary(text, o)
    requires forall k :: 0 <= k < |text| && text[k] == '\r' ==> k + 1 < |text| && text[k + 1] == '\n'
    ensures Addressable(text, o) <==> o == 0 || text[o - 1] != '\r'
  {
    LineBeginClean(text, o);
    var b := LineBegin(text, o);
    forall j | b <= j < o ensures text[j] != '\n' {
      assert text[j] in text[b..o];
    }
    if '\r' in text[b..o] {
      var k :| b <= k < o && text[k] == '\r';
      assert text[k + 1] == '\n';
      assert k == o - 1;
    }
    if o > 0 && text[o - 1] == '\r' {
      assert text[b..o][o - 1 - b] == '\r';
    }
  }

  // ----- the loops and the document object -----

  method ComputePosition(text: string, offset: nat) returns (p: Position)
    ensures p == PositionAt(text, offset)
  {
    var stop := if offset < |text| then offset else |text|;
    var i: nat, line: nat, column: nat := 0, 0, 0;
    while i < stop
      invariant i <= |text|
      invariant PositionFrom(text, i, stop, line, column) == PositionAt(text, offset)
    {
      if text[i] == '\n' {
        i, line, column := i + 1, line + 1, 0;
      } else {
        i, column := Next(text, i), column + Units(text[i]);
      }
    }
    p := Position(line, column);
  }

  method ComputeOffset(text: string, p: Position) returns (r: Option<nat>)
    ensures r == OffsetOf(text, p)
  {
    var i: nat := 0;
    for n := 0 to p.line
      invariant i <= |text|
      invariant LineStart(text, i, p.line - n) == LineStart(text, 0, p.line)
    {
      var next := FindNewline(text, i);
      if next.None? { return Some(|text|); }
      i := next.value + 1;
    }
    var column: nat := 0;
    while i < |text| && text[i] != '\n' && text[i] != '\r' && column < p.character
      invariant i <= |text|
      invariant ColumnFrom(text, i, column, p.character) == OffsetOf(text, p)
      decreases |text| - i
    {
      var units := Units(text[i]);
      if column + units > p.character { return None; }
      i, column := Next(text, i), column + units;
    }
    r := Some(i);
  }

  class Document {
    var text: string
    var version: int

    ghost function Now(): Doc
      reads this
    {
      Doc(text, version)
    }

    constructor (text: string, version: int)
      ensures Now() == Doc(text, version)
    {
      this.text, this.version := text, version;
    }

    method Update(version: int, changes: seq<Change>) returns (threw: bool)
      modifies this
      ensures Now() == DidChange(old(Now()), version, changes)
      ensures threw <==> version > old(this.version) && ApplyAll(old(text), changes).None?
    {
      if version <= this.version { return false; }
      var changed := text;
      for i := 0 to |changes|
        invariant text == old(text) && this.version == old(this.version)
        invariant ApplyAll(changed, changes[i..]) == ApplyAll(text, changes)
      {
        assert changes[i..][0] == changes[i] && changes[i..][1..] == changes[i + 1..];
        match changes[i] {
          case Whole(t) => changed := t;
          case Ranged(start, end, t) =>
            var b := ComputeOffset(changed, start);
            var e := ComputeOffset(changed, end);
            if b.None? || e.None? || e.value < b.value { return true; }
            changed := changed[..b.value] + t + changed[e.value..];
        }
      }
      text, this.version := changed, version;
      return false;
    }
  }
}
