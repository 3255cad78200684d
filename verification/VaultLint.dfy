// The linter that compares the ADR files with the server snapshot:
// run_snapshot_lint of scripts/vault_lint.py.
module VaultLint {
  import opened Basics
  import opened JsonValues
  import opened TextMode
  import opened AdrMarkdown
  import opened DecSnapshot

  datatype Check =
    | MissingDecisionsDir
    | MalformedAdr
    | DuplicateDecId
    | UnexpectedFile
    | SnapshotUnreadable
    | SnapshotFormat
    | SnapshotSchema
    | DuplicateReadableId
    | DocsToSnapshot
    | SnapshotToDocs
    | SupersedesDangling
    | SupersedesAsymmetric
    | SupersededByDangling
    | SupersededByAsymmetric
    | TitleMismatch
    | StatusMismatch

  datatype Issue = Issue(check: Check, decId: Option<string>)

  // A file of docs/decisions as it is on disk; no text when it cannot be read.
  datatype DocFile = DocFile(name: string, text: Option<string>)

  datatype Context = Context(yaml: Yaml, space: char -> bool)

  // --- dictionaries where the first declaration wins ----------------------------

  datatype Keyed<V> = Keyed(id: string, value: V)

  function Firsts<T, V>(xs: seq<T>, read: T -> Option<Keyed<V>>): map<string, V>
    decreases |xs|
  {
    if xs == [] then map[]
    else
      var m := Firsts(xs[..|xs| - 1], read);
      var r := read(xs[|xs| - 1]);
      if r.Some? && r.value.id !in m then m[r.value.id := r.value.value] else m
  }

  ghost predicate Declares<T, V>(xs: seq<T>, read: T -> Option<Keyed<V>>, i: int, k: string) {
    0 <= i < |xs| && read(xs[i]).Some? && read(xs[i]).value.id == k
  }

  ghost predicate Declared<T, V>(xs: seq<T>, read: T -> Option<Keyed<V>>, k: string) {
    exists i :: Declares(xs, read, i, k)
  }

  ghost predicate DeclaredTwice<T, V>(xs: seq<T>, read: T -> Option<Keyed<V>>, k: string) {
    exists i, j :: i < j && Declares(xs, read, i, k) && Declares(xs, read, j, k)
  }

  lemma DeclaresAppend<T, V>(xs: seq<T>, x: T, read: T -> Option<Keyed<V>>, k: string)
    ensures var last := read(x).Some? && read(x).value.id == k;
            && (Declared(xs + [x], read, k) <==> Declared(xs, read, k) || last)
            && (DeclaredTwice(xs + [x], read, k) <==> DeclaredTwice(xs, read, k) || (Declared(xs, read, k) && last))
  {
    var ys := xs + [x];
    assert forall i :: 0 <= i < |xs| ==> ys[i] == xs[i];
    assert forall i :: Declares(xs, read, i, k) ==> Declares(ys, read, i, k);
    assert forall i :: Declares(ys, read, i, k) && i < |xs| ==> Declares(xs, read, i, k);
    assert read(x).Some? && read(x).value.id == k ==> Declares(ys, read, |xs|, k);
  }

  lemma {:induction false} FirstsHold<T, V>(xs: seq<T>, read: T -> Option<Keyed<V>>, k: string)
    ensures k in Firsts(xs, read) <==> Declared(xs, read, k)
    ensures k in Firsts(xs, read) ==>
              exists i :: Declares(xs, read, i, k) && read(xs[i]).value.value == Firsts(xs, read)[k]
                          && forall j :: j < i ==> !Declares(xs, read, j, k)
    decreases |xs|
  {
    if xs != [] {
      var front, last := xs[..|xs| - 1], xs[|xs| - 1];
      FirstsHold(front, read, k);
      assert xs == front + [last];
      DeclaresAppend(front, last, read, k);
      assert forall i :: i < |front| ==> (Declares(xs, read, i, k) <==> Declares(front, read, i, k));
      if k in Firsts(front, read) {
        var i :| Declares(front, read, i, k) && read(front[i]).value.value == Firsts(front, read)[k]
                 && forall j :: j < i ==> !Declares(front, read, j, k);
        assert Declares(xs, read, i, k) && xs[i] == front[i];
      } else if Declared(xs, read, k) {
        assert Declares(xs, read, |front|, k);
      }
    }
  }

  // --- files -------------------------------------------------------------------

  predicate IsAdr(name: string) {
    StartsWith(name, "DEC-") && EndsWith(name, ".md")
  }

  predicate IsStray(name: string) {
    EndsWith(name, ".md") && !StartsWith(name, "DEC-") && !StartsWith(name, "_")
  }

  predicate IsText(c: Context, v: Json) {
    v.Str? && Strip(c.space, v.s) != ""
  }

  function FrontMatter(c: Context, f: DocFile): Option<Record> {
    if f.text.None? then None
    else
      var adr := ParseAdr(c.yaml, c.space, Universal(f.text.value));
      if adr.Some? && adr.value.fields.Obj? then Some(adr.value.fields.fields) else None
  }

  function ReadDoc(c: Context, f: DocFile): Option<Keyed<Record>> {
    var fields := FrontMatter(c, f);
    if IsAdr(f.name) && fields.Some? && IsText(c, Get(fields.value, "id"))
    then Some(Keyed(fields.value["id"].s, fields.value))
    else None
  }

  function DocReader(c: Context): DocFile -> Option<Keyed<Record>> {
    f => ReadDoc(c, f)
  }

  // --- the snapshot --------------------------------------------------------------

  datatype SnapshotDecision = SnapshotDecision(title: string, status: string, supersedes: seq<string>, supersededBy: seq<string>)

  const REQUIRED_KEYS: set<string> := {"date", "task_id", "supersedes", "superseded_by", "body", "body_source"}

  function Texts(items: seq<Json>): seq<string>
    requires forall v :: v in items ==> v.Str?
  {
    seq(|items|, i requires 0 <= i < |items| => items[i].s)
  }

  function ReadRefs(v: Json): Option<seq<string>> {
    if v.Null? then Some([])
    else if v.Arr? && forall x :: x in v.items ==> x.Str? then Some(Texts(v.items))
    else None
  }

  function ReadEntry(c: Context, e: Json): Option<Keyed<SnapshotDecision>> {
    if !e.Obj? then None
    else
      var id, title, status := Get(e.fields, "readable_id"), Get(e.fields, "title"), Get(e.fields, "status");
      if !(IsText(c, id) && IsText(c, title) && IsText(c, status) && REQUIRED_KEYS <= e.fields.Keys) then None
      else
        var newer, older := ReadRefs(e.fields["supersedes"]), ReadRefs(e.fields["superseded_by"]);
        if newer.None? || older.None? then None
        else Some(Keyed(id.s, SnapshotDecision(title.s, status.s, newer.value, older.value)))
  }

  function EntryReader(c: Context): Json -> Option<Keyed<SnapshotDecision>> {
    e => ReadEntry(c, e)
  }

  // The id an issue on a malformed entry carries.
  function EntryId(e: Json): Option<string> {
    if e.Obj? && Get(e.fields, "readable_id").Str? then Some(e.fields["readable_id"].s) else None
  }

  // --- what each group of checks reports -------------------------------------------

  ghost predicate FoundInAdrs(c: Context, files: seq<DocFile>, i: Issue) {
    || (i == Issue(MalformedAdr, None) && exists f :: f in files && IsAdr(f.name) && ReadDoc(c, f).None?)
    || (i.check.DuplicateDecId? && i.decId.Some? && DeclaredTwice(files, DocReader(c), i.decId.value))
  }

  ghost predicate FoundStray(files: seq<DocFile>, i: Issue) {
    i == Issue(UnexpectedFile, None) && exists f :: f in files && IsStray(f.name)
  }

  ghost predicate Malformed(c: Context, items: seq<Json>, id: Option<string>) {
    exists e :: e in items && ReadEntry(c, e).None? && EntryId(e) == id
  }

  ghost predicate FoundInSnapshot(c: Context, raw: Json, i: Issue) {
    if raw.Arr? then
      || (i.check.SnapshotSchema? && Malformed(c, raw.items, i.decId))
      || (i.check.DuplicateReadableId? && i.decId.Some? && DeclaredTwice(raw.items, EntryReader(c), i.decId.value))
    else
      i == Issue(SnapshotSchema, None)
  }

  ghost predicate FoundInCoverage(docs: set<string>, decisions: set<string>, i: Issue) {
    && i.decId.Some?
    && match i.check
       case DocsToSnapshot => i.decId.value in docs - decisions
       case SnapshotToDocs => i.decId.value in decisions - docs
       case _ => false
  }

  type Decisions = map<string, SnapshotDecision>

  function Newer(decisions: Decisions): map<string, seq<string>> {
    map id | id in decisions :: decisions[id].supersedes
  }

  function Older(decisions: Decisions): map<string, seq<string>> {
    map id | id in decisions :: decisions[id].supersededBy
  }

  ghost predicate Dangling(mirrors: map<string, seq<string>>, refs: seq<string>) {
    exists t :: t in refs && t !in mirrors
  }

  ghost predicate Unmirrored(mirrors: map<string, seq<string>>, id: string, refs: seq<string>) {
    exists t :: t in refs && t in mirrors && id !in mirrors[t]
  }

  ghost predicate FoundInLinks(decisions: Decisions, id: string, check: Check) {
    && id in decisions
    && match check
       case SupersedesDangling => Dangling(Older(decisions), decisions[id].supersedes)
       case SupersedesAsymmetric => Unmirrored(Older(decisions), id, decisions[id].supersedes)
       case SupersededByDangling => Dangling(Newer(decisions), decisions[id].supersededBy)
       case SupersededByAsymmetric => Unmirrored(Newer(decisions), id, decisions[id].supersededBy)
       case _ => false
  }

  predicate Matches(c: Context, v: Json, expected: string) {
    v.Str? && Strip(c.space, v.s) == expected
  }

  ghost predicate FoundInFields(c: Context, docs: map<string, Record>, decisions: Decisions, id: string, check: Check) {
    && id in docs && id in decisions
    && match check
       case TitleMismatch => !Matches(c, Get(docs[id], "title"), decisions[id].title)
       case StatusMismatch => !Matches(c, Get(docs[id], "status"), decisions[id].status)
       case _ => false
  }

  function DocsOf(c: Context, files: Option<seq<DocFile>>): map<string, Record> {
    if files.Some? then Firsts(files.value, DocReader(c)) else map[]
  }

  function DecisionsOf(c: Context, raw: Json): Decisions {
    if raw.Arr? then Firsts(raw.items, EntryReader(c)) else map[]
  }

  ghost predicate FoundInData(c: Context, docs: map<string, Record>, data: Record, i: Issue) {
    var raw := Get(data, "decisions");
    var decisions := DecisionsOf(c, raw);
    || (i == Issue(SnapshotFormat, None) && Get(data, "format") != Str(EXPORT_FORMAT))
    || FoundInSnapshot(c, raw, i)
    || FoundInCoverage(docs.Keys, decisions.Keys, i)
    || (i.decId.Some? && FoundInLinks(decisions, i.decId.value, i.check))
    || (i.decId.Some? && FoundInFields(c, docs, decisions, i.decId.value, i.check))
  }

  // The issues the linter reports, exactly.
  ghost predicate Found(c: Context, files: Option<seq<DocFile>>, data: Option<Json>, i: Issue) {
    || (if files.Some? then FoundInAdrs(c, files.value, i) || FoundStray(files.value, i) else i == Issue(MissingDecisionsDir, None))
    || (if data.Some? && data.value.Obj? then FoundInData(c, DocsOf(c, files), data.value.fields, i)
        else i == Issue(SnapshotUnreadable, None))
  }

  // --- the loops ---------------------------------------------------------------------

  // What one more element adds to a first-wins dictionary and to its repetitions.
  lemma FirstsPush<T, V>(xs: seq<T>, x: T, read: T -> Option<Keyed<V>>)
    ensures var m, r := Firsts(xs, read), read(x);
            && Firsts(xs + [x], read)
               == (if r.Some? && r.value.id !in m then m[r.value.id := r.value.value] else m)
            && forall k :: DeclaredTwice(xs + [x], read, k) <==>
                             DeclaredTwice(xs, read, k) || (r.Some? && r.value.id == k && k in m)
  {
    assert (xs + [x])[..|xs|] == xs;
    forall k
      ensures DeclaredTwice(xs + [x], read, k) <==>
                DeclaredTwice(xs, read, k) || (read(x).Some? && read(x).value.id == k && k in Firsts(xs, read))
    {
      DeclaresAppend(xs, x, read, k);
      FirstsHold(xs, read, k);
    }
  }

  lemma DocsAreAdrs(c: Context)
    ensures forall f :: DocReader(c)(f) == ReadDoc(c, f)
    ensures forall f :: ReadDoc(c, f).Some? ==> IsAdr(f.name)
  {
    hide IsAdr;
  }

  lemma ReaderReads(c: Context)
    ensures forall e :: EntryReader(c)(e) == ReadEntry(c, e)
  {
    hide ReadEntry;
  }

  // What one more file reports, given the documents read before it.
  predicate AddsAdr(c: Context, docs: map<string, Record>, f: DocFile, i: Issue) {
    var doc := ReadDoc(c, f);
    || (doc.None? && IsAdr(f.name) && i == Issue(MalformedAdr, None))
    || (doc.Some? && doc.value.id in docs && i == Issue(DuplicateDecId, Some(doc.value.id)))
  }

  lemma AdrStep(c: Context, files: seq<DocFile>, f: DocFile)
    ensures forall i :: FoundInAdrs(c, files + [f], i) <==>
                          FoundInAdrs(c, files, i) || AddsAdr(c, Firsts(files, DocReader(c)), f, i)
  {
    FirstsPush(files, f, DocReader(c));
    assert DocReader(c)(f) == ReadDoc(c, f);
    assert forall g :: g in files + [f] <==> g in files || g == f;
    hide ReadDoc, DeclaredTwice, Firsts, IsAdr;
  }

  function WithDoc(c: Context, docs: map<string, Record>, f: DocFile): map<string, Record> {
    var doc := ReadDoc(c, f);
    if doc.Some? && doc.value.id !in docs then docs[doc.value.id := doc.value.value] else docs
  }

  lemma DocStep(c: Context, files: seq<DocFile>, f: DocFile)
    ensures Firsts(files + [f], DocReader(c)) == WithDoc(c, Firsts(files, DocReader(c)), f)
  {
    FirstsPush(files, f, DocReader(c));
    hide ReadDoc, Firsts;
  }

  lemma MalformedStep(c: Context, items: seq<Json>, e: Json, id: Option<string>)
    ensures Malformed(c, items + [e], id) <==> Malformed(c, items, id) || (ReadEntry(c, e).None? && EntryId(e) == id)
  {
    assert forall g :: g in items + [e] <==> g in items || g == e;
    hide ReadEntry, EntryId;
  }

  lemma EntryStep(c: Context, items: seq<Json>, e: Json, i: Issue)
    ensures var entry, m := ReadEntry(c, e), Firsts(items, EntryReader(c));
            FoundInSnapshot(c, Arr(items + [e]), i) <==>
              || FoundInSnapshot(c, Arr(items), i)
              || (entry.None? && i == Issue(SnapshotSchema, EntryId(e)))
              || (entry.Some? && entry.value.id in m && i == Issue(DuplicateReadableId, Some(entry.value.id)))
  {
    FirstsPush(items, e, EntryReader(c));
    assert EntryReader(c)(e) == ReadEntry(c, e);
    MalformedStep(c, items, e, i.decId);
    hide ReadEntry, DeclaredTwice, Firsts, EntryId, Malformed;
  }

  lemma RefsStep(mirrors: map<string, seq<string>>, id: string, refs: seq<string>, target: string)
    ensures Dangling(mirrors, refs + [target]) <==> Dangling(mirrors, refs) || target !in mirrors
    ensures Unmirrored(mirrors, id, refs + [target]) <==>
              Unmirrored(mirrors, id, refs) || (target in mirrors && id !in mirrors[target])
  {
    assert forall t :: t in refs + [target] <==> t in refs || t == target;
  }

  class Report {
    var issues: seq<Issue>
    var adrCount: nat
    var snapshotCount: nat

    constructor ()
      ensures issues == [] && adrCount == 0 && snapshotCount == 0
    {
      issues, adrCount, snapshotCount := [], 0, 0;
    }

    method Add(check: Check, decId: Option<string>)
      modifies this`issues
      ensures issues == old(issues) + [Issue(check, decId)]
    {
      issues := issues + [Issue(check, decId)];
    }

    // One turn of the loop over the files.
    method AddDoc(c: Context, f: DocFile, docs: map<string, Record>) returns (more: map<string, Record>)
      modifies this`issues
      ensures more == WithDoc(c, docs, f)
      ensures forall i :: i in issues <==> i in old(issues) || AddsAdr(c, docs, f, i)
    {
      DocsAreAdrs(c);
      hide ReadDoc, IsAdr;
      more := docs;
      if IsAdr(f.name) {
        var doc := ReadDoc(c, f);
        if doc.None? {
          Add(MalformedAdr, None);
        } else if doc.value.id in docs {
          Add(DuplicateDecId, Some(doc.value.id));
        } else {
          more := docs[doc.value.id := doc.value.value];
        }
      }
    }

    method ReadDocs(c: Context, files: seq<DocFile>) returns (docs: map<string, Record>)
      modifies this`issues
      ensures docs == Firsts(files, DocReader(c))
      ensures forall i :: i in issues <==> i in old(issues) || FoundInAdrs(c, files, i)
    {
      docs := map[];
      assert forall i :: !FoundInAdrs(c, [], i);
      assert Firsts([], DocReader(c)) == map[];
      hide *;
      for n := 0 to |files|
        invariant docs == Firsts(files[..n], DocReader(c))
        invariant forall i :: i in issues <==> i in old(issues) || FoundInAdrs(c, files[..n], i)
      {
        var f := files[n];
        assert files[..n + 1] == files[..n] + [f];
        AdrStep(c, files[..n], f);
        DocStep(c, files[..n], f);
        docs := AddDoc(c, f, docs);
      }
      assert files[..|files|] == files;
    }

    method FindStrays(files: seq<DocFile>)
      modifies this`issues
      ensures forall i :: i in issues <==> i in old(issues) || FoundStray(files, i)
    {
      for n := 0 to |files|
        invariant forall i :: i in issues <==> i in old(issues) || FoundStray(files[..n], i)
      {
        if IsStray(files[n].name) {
          Add(UnexpectedFile, None);
        }
      }
      assert files[..|files|] == files;
    }
 
    method ParseSnapshotDecisions(c: Context, raw: Json) returns (decisions: Decisions)
      modifies this`issues
      ensures decisions == DecisionsOf(c, raw)
      ensures forall i :: i in issues <==> i in old(issues) || FoundInSnapshot(c, raw, i)
    {
      decisions := map[];
      if !raw.Arr? {
        Add(SnapshotSchema, None);
        return;
      }
      assert forall i :: !FoundInSnapshot(c, Arr([]), i);
      hide ReadEntry, FoundInSnapshot, EntryReader, EntryId;
      ReaderReads(c);
      for n := 0 to |raw.items|
        invariant decisions == Firsts(raw.items[..n], EntryReader(c))
        invariant forall i :: i in issues <==> i in old(issues) || FoundInSnapshot(c, Arr(raw.items[..n]), i)
      {
        var e := raw.items[n];
        assert raw.items[..n + 1] == raw.items[..n] + [e];
        forall i {
          EntryStep(c, raw.items[..n], e, i);
        }
        FirstsPush(raw.items[..n], e, EntryReader(c));
        hide Firsts;
        var entry := ReadEntry(c, e);
        if entry.None? {
          Add(SnapshotSchema, EntryId(e));
        } else if entry.value.id in decisions {
          Add(DuplicateReadableId, Some(entry.value.id));
        } else {
          decisions := decisions[entry.value.id := entry.value.value];
        }
      }
      assert raw.items[..|raw.items|] == raw.items;
    }

    // The ids of one side that the other side lacks.
    method CheckCoverage(ids: set<string>, others: set<string>, check: Check)
      modifies this`issues
      ensures forall i :: i in issues <==>
                            i in old(issues) || (i.check == check && i.decId.Some? && i.decId.value in ids - others)
    {
      var rest := ids;
      while rest != {}
        invariant rest <= ids
        invariant forall i :: i in issues <==>
                                i in old(issues) || (i.check == check && i.decId.Some? && i.decId.value in ids - rest - others)
      {
        var id :| id in rest;
        if id !in others {
          Add(check, Some(id));
        }
        rest := rest - {id};
      }
    }

    method CheckRefs(mirrors: map<string, seq<string>>, id: string, refs: seq<string>, dangling: Check, asymmetric: Check)
      modifies this`issues
      ensures forall i :: i in issues <==>
                            || i in old(issues)
                            || (Dangling(mirrors, refs) && i == Issue(dangling, Some(id)))
                            || (Unmirrored(mirrors, id, refs) && i == Issue(asymmetric, Some(id)))
    {
      assert !Dangling(mirrors, []) && !Unmirrored(mirrors, id, []);
      hide Dangling, Unmirrored;
      for n := 0 to |refs|
        invariant forall i :: i in issues <==>
                                || i in old(issues)
                                || (Dangling(mirrors, refs[..n]) && i == Issue(dangling, Some(id)))
                                || (Unmirrored(mirrors, id, refs[..n]) && i == Issue(asymmetric, Some(id)))
      {
        var target := refs[n];
        assert refs[..n + 1] == refs[..n] + [target];
        RefsStep(mirrors, id, refs[..n], target);
        if target !in mirrors {
          Add(dangling, Some(id));
        } else if id !in mirrors[target] {
          Add(asymmetric, Some(id));
        }
      }
      assert refs[..|refs|] == refs;
    }

    method CheckLinks(decisions: Decisions)
      modifies this`issues
      ensures forall i :: i in issues <==>
                            i in old(issues) || (i.decId.Some? && FoundInLinks(decisions, i.decId.value, i.check))
    {
      hide Dangling, Unmirrored, Newer, Older;
      var rest := decisions.Keys;
      while rest != {}
        invariant rest <= decisions.Keys
        invariant forall i :: i in issues <==>
                                i in old(issues)
                                || (i.decId.Some? && i.decId.value !in rest && FoundInLinks(decisions, i.decId.value, i.check))
      {
        var id :| id in rest;
        CheckRefs(Older(decisions), id, decisions[id].supersedes, SupersedesDangling, SupersedesAsymmetric);
        CheckRefs(Newer(decisions), id, decisions[id].supersededBy, SupersededByDangling, SupersededByAsymmetric);
        rest := rest - {id};
      }
    }

    method CheckFields(c: Context, docs: map<string, Record>, decisions: Decisions)
      modifies this`issues
      ensures forall i :: i in issues <==>
                            i in old(issues) || (i.decId.Some? && FoundInFields(c, docs, decisions, i.decId.value, i.check))
    {
      hide Matches;
      var rest := docs.Keys;
      while rest != {}
        invariant rest <= docs.Keys
        invariant forall i :: i in issues <==>
                                i in old(issues)
                                || (i.decId.Some? && i.decId.value !in rest && FoundInFields(c, docs, decisions, i.decId.value, i.check))
      {
        var id :| id in rest;
        if id in decisions {
          if !Matches(c, Get(docs[id], "title"), decisions[id].title) {
            Add(TitleMismatch, Some(id));
          }
          if !Matches(c, Get(docs[id], "status"), decisions[id].status) {
            Add(StatusMismatch, Some(id));
          }
        }
        rest := rest - {id};
      }
    }

    // Everything that needs the parsed snapshot.
    method CheckData(c: Context, docs: map<string, Record>, fields: Record)
      modifies this
      ensures forall i :: i in issues <==> i in old(issues) || FoundInData(c, docs, fields, i)
      ensures adrCount == old(adrCount) && snapshotCount == |DecisionsOf(c, Get(fields, "decisions"))|
    {
      hide FoundInSnapshot, FoundInLinks, FoundInFields, DecisionsOf;
      if Get(fields, "format") != Str(EXPORT_FORMAT) {
        Add(SnapshotFormat, None);
      }
      var decisions := ParseSnapshotDecisions(c, Get(fields, "decisions"));
      snapshotCount := |decisions|;
      CheckCoverage(docs.Keys, decisions.Keys, DocsToSnapshot);
      CheckCoverage(decisions.Keys, docs.Keys, SnapshotToDocs);
      CheckLinks(decisions);
      CheckFields(c, docs, decisions);
    }
  }

  // `data` is the parsed snapshot file, None when it cannot be read or parsed.
  method RunSnapshotLint(c: Context, files: Option<seq<DocFile>>, data: Option<Json>) returns (report: Report)
    ensures fresh(report)
    ensures forall i :: i in report.issues <==> Found(c, files, data, i)
    ensures report.adrCount == |DocsOf(c, files)|
    ensures data.Some? && data.value.Obj? ==> report.snapshotCount == |DecisionsOf(c, Get(data.value.fields, "decisions"))|
  {
    report := new Report();
    var docs: map<string, Record> := map[];
    if files.None? {
      report.Add(MissingDecisionsDir, None);
    } else {
      docs := report.ReadDocs(c, files.value);
      report.FindStrays(files.value);
    }
    report.adrCount := |docs|;
    assert docs == DocsOf(c, files);
    hide FoundInAdrs, FoundStray, DocsOf, DecisionsOf, FoundInData;
    if data.None? || !data.value.Obj? {
      report.Add(SnapshotUnreadable, None);
      return;
    }
    report.CheckData(c, docs, data.value.fields);
  }

  // --- what a clean report means ---------------------------------------------------------

  // One readable ADR per decision and one decision per ADR, no stray file,
  // links that exist and mirror each other, titles and statuses that agree.
  ghost predicate Conformant(c: Context, files: Option<seq<DocFile>>, data: Option<Json>) {
    && files.Some? && data.Some? && data.value.Obj?
    && DocsConform(c, files.value)
    && var raw := Get(data.value.fields, "decisions");
       && Get(data.value.fields, "format") == Str(EXPORT_FORMAT)
       && SnapshotConforms(c, raw)
       && DecisionsConform(c, DocsOf(c, files), DecisionsOf(c, raw))
  }

  ghost predicate DocsConform(c: Context, files: seq<DocFile>) {
    && (forall f :: f in files ==> !IsStray(f.name) && (IsAdr(f.name) ==> ReadDoc(c, f).Some?))
    && (forall id :: !DeclaredTwice(files, DocReader(c), id))
  }

  ghost predicate SnapshotConforms(c: Context, raw: Json) {
    && raw.Arr?
    && (forall e :: e in raw.items ==> ReadEntry(c, e).Some?)
    && (forall id :: !DeclaredTwice(raw.items, EntryReader(c), id))
  }

  ghost predicate Mirrored(mirrors: map<string, seq<string>>, id: string, refs: seq<string>) {
    forall t :: t in refs ==> t in mirrors && id in mirrors[t]
  }

  // What is checked of one decision.
  ghost predicate Agrees(c: Context, docs: map<string, Record>, decisions: Decisions, id: string)
    requires id in decisions
  {
    && Mirrored(Older(decisions), id, decisions[id].supersedes)
    && Mirrored(Newer(decisions), id, decisions[id].supersededBy)
    && (id in docs ==>
          && Matches(c, Get(docs[id], "title"), decisions[id].title)
          && Matches(c, Get(docs[id], "status"), decisions[id].status))
  }

  ghost predicate DecisionsConform(c: Context, docs: map<string, Record>, decisions: Decisions) {
    && docs.Keys == decisions.Keys
    && forall id :: id in decisions ==> Agrees(c, docs, decisions, id)
  }

  lemma NoAdrIssue(c: Context, files: seq<DocFile>)
    ensures (forall i :: !FoundInAdrs(c, files, i) && !FoundStray(files, i)) <==> DocsConform(c, files)
  {
    hide IsStray, IsAdr, ReadDoc, DeclaredTwice;
    if forall i :: !FoundInAdrs(c, files, i) && !FoundStray(files, i) {
      assert !FoundInAdrs(c, files, Issue(MalformedAdr, None)) && !FoundStray(files, Issue(UnexpectedFile, None));
      forall id
        ensures !DeclaredTwice(files, DocReader(c), id)
      {
        assert !FoundInAdrs(c, files, Issue(DuplicateDecId, Some(id)));
      }
    }
  }

  lemma NoSnapshotIssue(c: Context, raw: Json)
    ensures (forall i :: !FoundInSnapshot(c, raw, i)) <==> SnapshotConforms(c, raw)
  {
    hide ReadEntry, DeclaredTwice, EntryId;
    if !raw.Arr? {
      assert FoundInSnapshot(c, raw, Issue(SnapshotSchema, None));
    } else if forall i :: !FoundInSnapshot(c, raw, i) {
      forall e | e in raw.items
        ensures ReadEntry(c, e).Some?
      {
        assert !FoundInSnapshot(c, raw, Issue(SnapshotSchema, EntryId(e)));
      }
      forall id
        ensures !DeclaredTwice(raw.items, EntryReader(c), id)
      {
        assert !FoundInSnapshot(c, raw, Issue(DuplicateReadableId, Some(id)));
      }
    }
  }

  lemma NoLinkIssue(decisions: Decisions, id: string)
    requires id in decisions
    ensures (forall check :: !FoundInLinks(decisions, id, check)) <==>
              && Mirrored(Older(decisions), id, decisions[id].supersedes)
              && Mirrored(Newer(decisions), id, decisions[id].supersededBy)
  {
    hide Newer, Older;
    if forall check :: !FoundInLinks(decisions, id, check) {
      assert !FoundInLinks(decisions, id, SupersedesDangling) && !FoundInLinks(decisions, id, SupersedesAsymmetric);
      assert !FoundInLinks(decisions, id, SupersededByDangling) && !FoundInLinks(decisions, id, SupersededByAsymmetric);
    }
  }

  lemma NoFieldIssue(c: Context, docs: map<string, Record>, decisions: Decisions, id: string)
    requires id in docs && id in decisions
    ensures (forall check :: !FoundInFields(c, docs, decisions, id, check)) <==>
              && Matches(c, Get(docs[id], "title"), decisions[id].title)
              && Matches(c, Get(docs[id], "status"), decisions[id].status)
  {
    hide Matches;
    if forall check :: !FoundInFields(c, docs, decisions, id, check) {
      assert !FoundInFields(c, docs, decisions, id, TitleMismatch) && !FoundInFields(c, docs, decisions, id, StatusMismatch);
    }
  }

  lemma NoCoverageIssue(docs: set<string>, decisions: set<string>)
    ensures (forall i :: !FoundInCoverage(docs, decisions, i)) <==> docs == decisions
  {
    if forall i :: !FoundInCoverage(docs, decisions, i) {
      forall id
        ensures id in docs <==> id in decisions
      {
        assert !FoundInCoverage(docs, decisions, Issue(DocsToSnapshot, Some(id)));
        assert !FoundInCoverage(docs, decisions, Issue(SnapshotToDocs, Some(id)));
      }
    }
  }

  ghost predicate NoneFound(c: Context, docs: map<string, Record>, decisions: Decisions) {
    && (forall i :: !FoundInCoverage(docs.Keys, decisions.Keys, i))
    && (forall id, check :: !FoundInLinks(decisions, id, check))
    && (forall id, check :: !FoundInFields(c, docs, decisions, id, check))
  }

  lemma NoDecisionIssue(c: Context, docs: map<string, Record>, decisions: Decisions)
    ensures NoneFound(c, docs, decisions) <==> DecisionsConform(c, docs, decisions)
  {
    hide Mirrored, Matches, Newer, Older, FoundInCoverage;
    assert forall id, check :: FoundInLinks(decisions, id, check) ==> id in decisions;
    assert forall id, check :: FoundInFields(c, docs, decisions, id, check) ==> id in decisions && id in docs;
    NoCoverageIssue(docs.Keys, decisions.Keys);
    hide FoundInLinks, FoundInFields;
    forall id | id in decisions {
      NoLinkIssue(decisions, id);
    }
    forall id | id in decisions && id in docs {
      NoFieldIssue(c, docs, decisions, id);
    }
  }

  // The report is empty exactly when the two sides conform.
  lemma CleanExactlyWhenConformant(c: Context, files: Option<seq<DocFile>>, data: Option<Json>)
    ensures (forall i :: !Found(c, files, data, i)) <==> Conformant(c, files, data)
  {
    hide FoundInAdrs, FoundStray, FoundInSnapshot, FoundInCoverage, FoundInLinks, FoundInFields, DocsOf, DecisionsOf;
    hide DocsConform, SnapshotConforms, DecisionsConform;
    if files.None? {
      assert Found(c, files, data, Issue(MissingDecisionsDir, None));
    } else if data.None? || !data.value.Obj? {
      assert Found(c, files, data, Issue(SnapshotUnreadable, None));
    } else {
      var raw := Get(data.value.fields, "decisions");
      var docs, decisions := DocsOf(c, files), DecisionsOf(c, raw);
      NoAdrIssue(c, files.value);
      NoSnapshotIssue(c, raw);
      NoDecisionIssue(c, docs, decisions);
      if forall i :: !Found(c, files, data, i) {
        assert !Found(c, files, data, Issue(SnapshotFormat, None));
        forall i
          ensures !FoundInAdrs(c, files.value, i) && !FoundStray(files.value, i) && !FoundInSnapshot(c, raw, i)
          ensures !FoundInCoverage(docs.Keys, decisions.Keys, i)
        {
          assert !Found(c, files, data, i);
        }
        forall id, check
          ensures !FoundInLinks(decisions, id, check) && !FoundInFields(c, docs, decisions, id, check)
        {
          assert !Found(c, files, data, Issue(check, Some(id)));
        }
      }
    }
  }

  // --- single documents and entries ------------------------------------------------------

  // A field matches when it is the expected text with blanks around it.
  lemma MatchesExactly(c: Context, v: Json, expected: string)
    ensures Matches(c, v, expected) <==>
              && v.Str? && Stripped(c.space, expected)
              && exists pad, end :: Blank(c.space, pad) && Blank(c.space, end) && v.s == pad + expected + end
  {
    if v.Str? {
      StripTrims(c.space, v.s);
      var pad, end := AroundStripped(c.space, v.s);
      if Stripped(c.space, expected) {
        forall pad, end | Blank(c.space, pad) && Blank(c.space, end) && v.s == pad + expected + end
          ensures Strip(c.space, v.s) == expected
        {
          StripUnpads(c.space, pad, expected, end);
        }
      }
    }
  }

  lemma AroundStripped(space: char -> bool, s: string) returns (pad: string, end: string)
    ensures Blank(space, pad) && Blank(space, end) && s == pad + Strip(space, s) + end
  {
    var k := LstripSplits(space, s);
    RstripSplits(space, s[k..]);
    pad, end := s[..k], s[k..][|Strip(space, s)|..];
    assert s == s[..k] + s[k..];
  }

  // A document and the decision of its id disagree exactly when the title, or the
  // status, of the file is not that of the snapshot with blanks around it.
  lemma MismatchExactly(c: Context, docs: map<string, Record>, decisions: Decisions, id: string)
    requires id in docs && id in decisions
    ensures FoundInFields(c, docs, decisions, id, TitleMismatch) <==> !Matches(c, Get(docs[id], "title"), decisions[id].title)
    ensures FoundInFields(c, docs, decisions, id, StatusMismatch) <==> !Matches(c, Get(docs[id], "status"), decisions[id].status)
  {
  }

  // A reference field: an absent list, or a list of texts.
  ghost predicate Refs(v: Json, ids: seq<string>) {
    if v.Null? then ids == []
    else v.Arr? && |v.items| == |ids| && forall i :: 0 <= i < |ids| ==> v.items[i] == Str(ids[i])
  }

  lemma ReadRefsExactly(v: Json, ids: seq<string>)
    ensures ReadRefs(v) == Some(ids) <==> Refs(v, ids)
  {
    if v.Arr? && Refs(v, ids) {
      assert forall x :: x in v.items ==> x.Str?;
      assert Texts(v.items) == ids;
    }
    if ReadRefs(v) == Some(ids) && v.Arr? {
      assert forall i :: 0 <= i < |v.items| ==> v.items[i] in v.items;
    }
  }

  // An entry is read exactly when id, title and status are texts that are not
  // blank, the other six fields are there, and both reference fields are lists of
  // texts.
  lemma ReadEntryExactly(c: Context, e: Json, id: string, d: SnapshotDecision)
    ensures ReadEntry(c, e) == Some(Keyed(id, d)) <==>
              && e.Obj?
              && Get(e.fields, "readable_id") == Str(id) && !Blank(c.space, id)
              && Get(e.fields, "title") == Str(d.title) && !Blank(c.space, d.title)
              && Get(e.fields, "status") == Str(d.status) && !Blank(c.space, d.status)
              && (forall k :: k in ["date", "task_id", "supersedes", "superseded_by", "body", "body_source"] ==> k in e.fields)
              && Refs(Get(e.fields, "supersedes"), d.supersedes)
              && Refs(Get(e.fields, "superseded_by"), d.supersededBy)
  {
    StripIsEmpty(c.space, id);
    StripIsEmpty(c.space, d.title);
    StripIsEmpty(c.space, d.status);
    hide Strip, ReadRefs, Refs, Blank;
    if e.Obj? {
      RequiredKeysAre(e.fields);
      ReadRefsExactly(Get(e.fields, "supersedes"), d.supersedes);
      ReadRefsExactly(Get(e.fields, "superseded_by"), d.supersededBy);
    }
  }

  lemma RequiredKeysAre(fields: Record)
    ensures REQUIRED_KEYS <= fields.Keys <==>
              forall k :: k in ["date", "task_id", "supersedes", "superseded_by", "body", "body_source"] ==> k in fields
  {
    assert forall k :: k in REQUIRED_KEYS <==> k in ["date", "task_id", "supersedes", "superseded_by", "body", "body_source"];
  }

  // A file is read exactly when its name is that of an ADR, it has front matter
  // that is a record, and the record has an id that is not blank.
  lemma ReadDocExactly(c: Context, f: DocFile, id: string, fields: Record)
    ensures ReadDoc(c, f) == Some(Keyed(id, fields)) <==>
              && StartsWith(f.name, "DEC-") && EndsWith(f.name, ".md")
              && f.text.Some? && SplitFrontMatter(Universal(f.text.value)).Some?
              && (var loaded := c.yaml.load(SplitFrontMatter(Universal(f.text.value)).value.front);
                  loaded == Obj(fields))
              && Get(fields, "id") == Str(id) && !Blank(c.space, id)
  {
    StripIsEmpty(c.space, id);
    hide Strip, Blank, SplitFrontMatter, DropHeading, Universal, StartsWith, EndsWith;
  }

  // A Markdown file that is neither an ADR nor set apart by an underscore.
  lemma StraysExactly(c: Context, files: seq<DocFile>, data: Option<Json>)
    ensures Found(c, Some(files), data, Issue(UnexpectedFile, None)) <==>
              exists f :: f in files && EndsWith(f.name, ".md") && !StartsWith(f.name, "DEC-") && !StartsWith(f.name, "_")
  {
    hide FoundInAdrs, FoundInSnapshot, FoundInCoverage, FoundInLinks, FoundInFields, StartsWith, EndsWith, DecisionsOf, DocsOf;
    var i := Issue(UnexpectedFile, None);
    NotOfThese(c, files, data, i);
    assert forall f: DocFile :: IsStray(f.name) <==> EndsWith(f.name, ".md") && !StartsWith(f.name, "DEC-") && !StartsWith(f.name, "_");
  }

  lemma NotOfThese(c: Context, files: seq<DocFile>, data: Option<Json>, i: Issue)
    requires i == Issue(UnexpectedFile, None)
    ensures !FoundInAdrs(c, files, i)
    ensures data.Some? && data.value.Obj? ==> !FoundInData(c, DocsOf(c, Some(files)), data.value.fields, i)
  {
    hide Firsts, ReadDoc, ReadEntry, DeclaredTwice, Malformed;
  }

  // The format a snapshot has to name.
  lemma FormatExactly(c: Context, docs: map<string, Record>, data: Record)
    ensures FoundInData(c, docs, data, Issue(SnapshotFormat, None)) <==> Get(data, "format") != Str("studio-dec-export/1")
  {
    hide Firsts, ReadEntry, DeclaredTwice, Malformed;
  }

  // A malformed entry is reported under its id when that is a text.
  lemma MalformedEntryIsNamed(c: Context, items: seq<Json>, e: Json)
    requires e in items && ReadEntry(c, e).None?
    ensures FoundInSnapshot(c, Arr(items), Issue(SnapshotSchema, if e.Obj? && Get(e.fields, "readable_id").Str? then Some(Get(e.fields, "readable_id").s) else None))
  {
    hide ReadEntry;
  }
}
