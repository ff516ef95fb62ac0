/** Which forms are accepted, and why others are not: each part is judged by itself and by the parts before it, and the
    first that fails decides. */
module MultipartVerdicts {
  import opened Text
  import opened Framing
  import opened Multipart
  import opened MultipartRoundTrip
  import opened MultipartForms

  /** A field before part k has this key. */
  predicate FieldBefore(parts: seq<Part>, k: nat, key: string)
    requires k <= |parts|
  {
    exists j :: 0 <= j < k && !IsFile(parts[j]) && parts[j].name == key
  }

  /** A file, not merely an empty file input, before part k has this key. */
  predicate FileBefore(parts: seq<Part>, k: nat, key: string)
    requires k <= |parts|
  {
    exists j :: 0 <= j < k && IsFile(parts[j]) && parts[j].filename != Some("") && Key(parts[j].name) == key
  }

  datatype Verdict = Fine | Bad | TooMuch

  function VerdictOn(parts: seq<Part>, k: nat, a: Allowance): Verdict
    requires k < |parts|
  {
    var p := parts[k];
    if k + 1 > a.parts || |Section(p)| > a.header then TooMuch
    else if !GoodName(p.name) then Bad
    else if |p.bytes| > (if IsFile(p) then a.file else a.field) then TooMuch
    else if IsFile(p) then
      if FieldBefore(parts, k, Key(p.name)) then Bad
      else if p.filename == Some("") then if p.bytes == "" then Fine else Bad
      else if GoodFile(p) then Fine else Bad
    else if Listed(p.name) || FileBefore(parts, k, Key(p.name)) then Bad
    else Fine
  }

  ghost predicate FineBefore(parts: seq<Part>, k: nat, a: Allowance)
    requires k <= |parts|
  {
    forall j :: 0 <= j < k ==> VerdictOn(parts, j, a) == Fine
  }

  function Answer(v: Verdict, form: Form): Result<Form> {
    match v
    case Fine => Ok(form)
    case Bad => Malformed
    case TooMuch => Oversized
  }

  // ----- what is stored already -----

  lemma {:induction false} FieldKeys(parts: seq<Part>, fields: map<string, string>, name: string)
    ensures name in FieldsOf(parts, fields) <==> name in fields || FieldBefore(parts, |parts|, name)
    decreases |parts|
  {
    if parts != [] {
      var rest := parts[1..];
      var next := if IsFile(parts[0]) then fields else fields[parts[0].name := parts[0].bytes];
      FieldKeys(rest, next, name);
      assert forall j :: 0 <= j < |rest| ==> rest[j] == parts[j + 1];
      assert forall j :: 1 <= j < |parts| ==> parts[j] == rest[j - 1];
      hide FieldsOf;
      if FieldBefore(rest, |rest|, name) {
        var j :| 0 <= j < |rest| && !IsFile(rest[j]) && rest[j].name == name;
        assert !IsFile(parts[j + 1]) && parts[j + 1].name == name;
      }
      if !IsFile(parts[0]) && parts[0].name == name {
        assert FieldBefore(parts, |parts|, name);
      }
    }
  }

  ghost predicate HasKey(files: seq<Upload>, key: string) {
    exists i :: 0 <= i < |files| && Key(files[i].name) == key
  }

  lemma KeyJoin(a: seq<Upload>, b: seq<Upload>, key: string)
    ensures HasKey(a + b, key) <==> HasKey(a, key) || HasKey(b, key)
  {
    hide Key;
    var s := a + b;
    assert forall i :: 0 <= i < |a| ==> s[i] == a[i];
    assert forall i :: 0 <= i < |b| ==> b[i] == s[|a| + i];
  }

  /** Every file part was judged fine: empty, or good. */
  ghost predicate FilesFine(parts: seq<Part>) {
    forall j :: 0 <= j < |parts| && IsFile(parts[j]) ==> Unused(parts[j]) || (parts[j].filename != Some("") && GoodFile(parts[j]))
  }

  lemma UploadKey(p: Part, key: string)
    requires IsFile(p) ==> Unused(p) || (p.filename != Some("") && GoodFile(p))
    ensures HasKey(Uploaded(p), key) <==> IsFile(p) && p.filename != Some("") && Key(p.name) == key
  {
    hide Key, SafeName, BaseName, MediaType;
    if IsFile(p) && !Unused(p) {
      assert Uploaded(p)[0].name == p.name;
    }
  }

  lemma {:induction false} FileKeys(parts: seq<Part>, key: string)
    requires FilesFine(parts)
    ensures HasKey(FilesOf(parts), key) <==> FileBefore(parts, |parts|, key)
  {
    if parts != [] {
      var rest := parts[1..];
      assert forall j :: 0 <= j < |rest| ==> rest[j] == parts[j + 1];
      assert forall j :: 1 <= j < |parts| ==> parts[j] == rest[j - 1];
      hide Key, GoodFile, Uploaded;
      FileKeys(rest, key);
      UploadKey(parts[0], key);
      KeyJoin(Uploaded(parts[0]), FilesOf(rest), key);
      if FileBefore(rest, |rest|, key) {
        var j :| 0 <= j < |rest| && IsFile(rest[j]) && rest[j].filename != Some("") && Key(rest[j].name) == key;
        assert IsFile(parts[j + 1]) && parts[j + 1].filename != Some("") && Key(parts[j + 1].name) == key;
      }
      hide HasKey;
    }
  }

  lemma FineFiles(parts: seq<Part>, k: nat, a: Allowance)
    requires k <= |parts| && FineBefore(parts, k, a)
    ensures FilesFine(parts[..k])
  {
    hide GoodFile, GoodName, Section, Key, FieldBefore, FileBefore;
    forall j | 0 <= j < k && IsFile(parts[j]) ensures Unused(parts[j]) || (parts[j].filename != Some("") && GoodFile(parts[j])) {
      assert VerdictOn(parts, j, a) == Fine;
    }
  }

  /** The form after the first k parts knows which keys they used. */
  lemma StoredKeys(parts: seq<Part>, k: nat, a: Allowance, key: string)
    requires k <= |parts| && FineBefore(parts, k, a)
    ensures var form := StoredAll(EMPTY, parts[..k]);
            && (key in form.fields <==> FieldBefore(parts, k, key))
            && (HasKey(form.files, key) <==> FileBefore(parts, k, key))
  {
    var front := parts[..k];
    StoredFields(front, EMPTY);
    StoredFiles(front, EMPTY);
    assert [] + FilesOf(front) == FilesOf(front);
    FieldKeys(front, map[], key);
    FineFiles(parts, k, a);
    FileKeys(front, key);
    hide StoredAll, FieldsOf, FilesOf, Key, FilesFine;
    assert forall j :: 0 <= j < k ==> front[j] == parts[j];
  }

  // ----- one part -----

  lemma StoreFileAs(form: Form, parts: seq<Part>, k: nat, a: Allowance)
    requires k < |parts| && IsFile(parts[k]) && GoodName(parts[k].name) && k + 1 <= a.parts && |Section(parts[k])| <= a.header
    requires Key(parts[k].name) in form.fields <==> FieldBefore(parts, k, Key(parts[k].name))
    ensures var p := parts[k];
            Store(form, Head(p.name, p.filename, p.contentType), p.bytes, a) == Answer(VerdictOn(parts, k, a), Stored(form, p))
  {
    hide MediaType, BaseName, IsText, GoodName, Section, Key, FieldBefore, FileBefore;
    assert form.files + [] == form.files;
  }

  lemma StoreFieldAs(form: Form, parts: seq<Part>, k: nat, a: Allowance)
    requires k < |parts| && !IsFile(parts[k]) && GoodName(parts[k].name) && k + 1 <= a.parts && |Section(parts[k])| <= a.header
    requires HasKey(form.files, Key(parts[k].name)) <==> FileBefore(parts, k, Key(parts[k].name))
    ensures var p := parts[k];
            Store(form, Head(p.name, p.filename, p.contentType), p.bytes, a) == Answer(VerdictOn(parts, k, a), Stored(form, p))
  {
    hide GoodName, Section, Key, FieldBefore, FileBefore;
  }

  lemma {:induction false} StoredNext(form: Form, parts: seq<Part>, p: Part)
    ensures StoredAll(form, parts + [p]) == Stored(StoredAll(form, parts), p)
    decreases |parts|
  {
    hide Stored;
    if parts == [] {
      assert parts + [p] == [p] && [p][1..] == [];
    } else {
      assert (parts + [p])[0] == parts[0] && (parts + [p])[1..] == parts[1..] + [p];
      StoredNext(Stored(form, parts[0]), parts[1..], p);
    }
  }

  /** One part more: the form grows by it, or its verdict is the answer. */
  lemma GatherOne(parts: seq<Part>, k: nat, a: Allowance)
    requires k < |parts| && FineBefore(parts, k, a)
    ensures var form := StoredAll(EMPTY, parts[..k]);
            Gather(parts[k..], form, k, a) ==
            if VerdictOn(parts, k, a) == Fine then Gather(parts[k + 1..], StoredAll(EMPTY, parts[..k + 1]), k + 1, a)
            else Answer(VerdictOn(parts, k, a), form)
  {
    var form, p := StoredAll(EMPTY, parts[..k]), parts[k];
    StoredKeys(parts, k, a, Key(p.name));
    assert parts[..k + 1] == parts[..k] + [p];
    StoredNext(EMPTY, parts[..k], p);
    assert parts[k..][0] == p && parts[k..][1..] == parts[k + 1..];
    if k + 1 <= a.parts && |Section(p)| <= a.header && GoodName(p.name) {
      if IsFile(p) { StoreFileAs(form, parts, k, a); } else { StoreFieldAs(form, parts, k, a); }
    }
    hide Store, StoredAll, Stored, Section, GoodName, Key, FieldBefore, FileBefore, HasKey, FineBefore, GoodFile, Listed;
  }

  // ----- whole forms -----

  lemma {:induction false} GatherTo(parts: seq<Part>, k: nat, a: Allowance)
    requires k <= |parts| && FineBefore(parts, k, a)
    ensures Gather(parts, EMPTY, 0, a) == Gather(parts[k..], StoredAll(EMPTY, parts[..k]), k, a)
  {
    if k == 0 {
      assert parts[0..] == parts && parts[..0] == [];
    } else {
      GatherTo(parts, k - 1, a);
      GatherOne(parts, k - 1, a);
    }
  }

  /** FORMS EXACTLY.  Whatever parts a client sends, behind whatever preamble, the form is accepted if and only if every part is fine after those
      before it, and then holds exactly their fields and files; otherwise the first part that is not decides whether
      it is malformed or too large. */
  lemma FormExactly(contentType: string, boundary: string, front: string, parts: seq<Part>, a: Allowance, body: string, k: nat)
    requires Announces(contentType, boundary) && ValidBoundary(boundary) && AllSendable("--" + boundary, parts)
    requires body == front + Encode("--" + boundary, parts) && Preamble(front, "--" + boundary, body) && |body| <= a.body
    requires k <= |parts| && FineBefore(parts, k, a)
    ensures var r := ParseMultipart(contentType, body, a);
            && (k == |parts| ==> r == Ok(Form(FieldsOf(parts, map[]), FilesOf(parts))))
            && (k < |parts| && VerdictOn(parts, k, a) == Bad ==> r == Malformed)
            && (k < |parts| && VerdictOn(parts, k, a) == TooMuch ==> r == Oversized)
  {
    FormReadBehind(contentType, boundary, front, parts, a, body);
    GatherTo(parts, k, a);
    if k == |parts| {
      assert parts[k..] == [] && parts[..k] == parts;
      StoredFields(parts, EMPTY);
      StoredFiles(parts, EMPTY);
      assert [] + FilesOf(parts) == FilesOf(parts);
      hide ParseMultipart, StoredAll, Encode, Announces, Preamble;
    } else {
      GatherOne(parts, k, a);
      hide ParseMultipart, Gather, StoredAll, Encode, Announces, Preamble, VerdictOn;
    }
  }
}
