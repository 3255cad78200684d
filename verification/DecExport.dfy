// The export linted against the snapshot it comes from: every rendered file reads
// back as its entry (scripts/dec_export.py, scripts/vault_lint.py).
module DecExport {
  import opened Basics
  import opened JsonValues
  import opened TextMode
  import opened AdrMarkdown
  import opened DecSnapshot
  import opened DecRender
  import opened VaultLint

  // --- the snapshot file --------------------------------------------------------------

  function EncodeEntry(e: Entry): Json {
    Obj(map[
      "readable_id" := Str(e.id),
      "title" := Str(e.title),
      "status" := Str(e.status),
      "date" := Optional(e.date),
      "task_id" := Optional(e.taskId),
      "supersedes" := Strings(e.supersedes),
      "superseded_by" := Strings(e.supersededBy),
      "body" := Str(e.body),
      "body_source" := Str(if e.source.FromDecision? then "decision" else "vault")
    ])
  }

  function EncodeEntries(entries: seq<Entry>): seq<Json> {
    seq(|entries|, i requires 0 <= i < |entries| => EncodeEntry(entries[i]))
  }

  function Encode(s: Snapshot): Json {
    Obj(map[
      "format" := Str(s.format),
      "project_id" := Str(s.projectId),
      "decisions" := Arr(EncodeEntries(s.decisions))
    ])
  }

  lemma EncodeHas(s: Snapshot)
    ensures Encode(s).Obj?
    ensures Get(Encode(s).fields, "format") == Str(s.format)
    ensures Get(Encode(s).fields, "decisions") == Arr(EncodeEntries(s.decisions))
  {
  }

  lemma EncodeEntryHas(e: Entry)
    ensures var f := EncodeEntry(e).fields;
            && REQUIRED_KEYS <= f.Keys
            && Get(f, "readable_id") == Str(e.id) && Get(f, "title") == Str(e.title) && Get(f, "status") == Str(e.status)
            && f["supersedes"] == Strings(e.supersedes) && f["superseded_by"] == Strings(e.supersededBy)
  {
  }

  // What an exported entry says, field by field.
  lemma EntrySays(e: Entry)
    ensures EncodeEntry(e).Obj?
    ensures var f := EncodeEntry(e).fields;
            && Get(f, "readable_id") == Str(e.id) && Get(f, "title") == Str(e.title) && Get(f, "status") == Str(e.status)
            && Get(f, "body") == Str(e.body)
            && Get(f, "body_source") == Str(match e.source case FromDecision => "decision" case FromVault => "vault")
            && (if e.date.Some? then Get(f, "date") == Str(e.date.value) else "date" in f && f["date"] == Null)
            && (if e.taskId.Some? then Get(f, "task_id") == Str(e.taskId.value) else "task_id" in f && f["task_id"] == Null)
            && Get(f, "supersedes") == Strings(e.supersedes) && Get(f, "superseded_by") == Strings(e.supersededBy)
  {
  }

  lemma StringsReadBack(ids: seq<string>)
    ensures ReadRefs(Strings(ids)) == Some(ids)
  {
    assert Texts(Strings(ids).items) == ids;
  }

  // --- each side, entry by entry -------------------------------------------------------

  // What the snapshot's own format leaves open: titles may be anything.
  ghost predicate WellFormed(s: Snapshot) {
    s.format == EXPORT_FORMAT && Exportable(s.decisions) && WellLinked(s.decisions)
  }

  predicate CleanTitle(c: Context, title: string) {
    Strip(c.space, title) == title && title != ""
  }

  function Summary(e: Entry): SnapshotDecision {
    SnapshotDecision(e.title, e.status, e.supersedes, e.supersededBy)
  }

  function SummaryValue(): Entry -> SnapshotDecision {
    e => Summary(e)
  }

  lemma LettersAreKept(space: char -> bool, s: string)
    requires LawfulSpace(space) && s != ""
    requires 'A' <= s[0] <= 'Z' || 'a' <= s[0] <= 'z'
    ensures Strip(space, s) != ""
    ensures 'A' <= s[|s| - 1] <= 'Z' || 'a' <= s[|s| - 1] <= 'z' ==> Strip(space, s) == s
  {
    StripTrims(space, s);
    StripIsEmpty(space, s);
    assert s[0] in s;
  }

  lemma EntryReadsBack(c: Context, e: Entry)
    requires LawfulSpace(c.space) && DecId(e.id) && e.status in {"proposed", "accepted", "superseded"}
    ensures ReadEntry(c, EncodeEntry(e))
            == if Strip(c.space, e.title) == "" then None else Some(Keyed(e.id, Summary(e)))
  {
    EncodeEntryHas(e);
    StringsReadBack(e.supersedes);
    StringsReadBack(e.supersededBy);
    LettersAreKept(c.space, e.id);
    LettersAreKept(c.space, e.status);
    hide EncodeEntry, Strip, ReadRefs, Strings, DecId;
  }

  lemma FileNameIsAdr(r: Renderer, e: Entry)
    requires DecId(e.id)
    ensures IsAdr(FileName(r, e))
  {
    var name := FileName(r, e);
    assert name[..4] == "DEC-" && name[|name| - 3..] == ".md";
  }

  function TextAfterFrontMatter(r: Renderer, e: Entry): string {
    "\n" + Heading(e.id, e.title) + "\n\n" + Clean(r.space, e.body) + "\n"
  }

  lemma FileTextParts(r: Renderer, e: Entry)
    ensures FileText(r, e) == "---\n" + r.yaml.dump(AdrFields(e)) + "---\n" + TextAfterFrontMatter(r, e)
  {
    AdrFieldsAre(e);
    hide AdrFields, Heading;
  }

  // Whatever its line ends, a file that shows the rendered text reads back.
  lemma ShownParses(yaml: Yaml, space: char -> bool, r: Renderer, e: Entry, file: string)
    requires yaml == r.yaml && Lawful(yaml) && Shows(file, FileText(r, e))
    ensures var adr := ParseAdr(yaml, space, Universal(file));
            adr.Some? && adr.value.fields == Obj(AdrFields(e))
  {
    ShownReadsAsText(file, FileText(r, e));
    FileTextParts(r, e);
    hide FileText, Strip, SplitFrontMatter, DropHeading, TextAfterFrontMatter, Universal, Shows;
    var rest := TextAfterFrontMatter(r, e);
    var front := "---\n" + yaml.dump(AdrFields(e)) + "---\n";
    UniversalAppend(front, rest);
    RenderSplits(yaml, AdrFields(e), Universal(rest));
    assert AdrFields(e) != map[] by { AdrFieldsAre(e); }
  }

  lemma AdrReadsBack(c: Context, r: Renderer, e: Entry, file: string)
    requires c.yaml == r.yaml && Lawful(c.yaml) && LawfulSpace(c.space) && DecId(e.id)
    requires Shows(file, FileText(r, e))
    ensures ReadDoc(c, DocFile(FileName(r, e), Some(file))) == Some(Keyed(e.id, AdrFields(e)))
  {
    ShownParses(c.yaml, c.space, r, e, file);
    AdrFieldsAre(e);
    FileNameIsAdr(r, e);
    LettersAreKept(c.space, e.id);
    hide ParseAdr, FileName, FileText, Strip, AdrFields, IsAdr, DecId, Known, Universal, Shows;
  }

  // --- a snapshot against its own render --------------------------------------------------

  // `files` lists the directory, each name once, in any order.
  ghost predicate Lists(files: Option<seq<DocFile>>, dir: Option<map<string, string>>) {
    if files.None? || dir.None? then files.None? && dir.None?
    else
      && (forall i, j :: 0 <= i < j < |files.value| ==> files.value[i].name != files.value[j].name)
      && (forall f :: f in files.value ==> f.name in dir.value && f.text == Some(dir.value[f.name]))
      && (forall name :: name in dir.value ==> exists f :: f in files.value && f.name == name)
  }

  // A dictionary built from the entries: one value per id.
  ghost predicate Tabulates<V>(m: map<string, V>, entries: seq<Entry>, value: Entry -> V) {
    && (forall id :: id in m <==> id in Ids(entries))
    && (forall e :: e in entries ==> e.id in m && m[e.id] == value(e))
  }

  lemma IdOf(entries: seq<Entry>, id: string)
    ensures id in Ids(entries) <==> exists e :: e in entries && e.id == id
  {
    if id in Ids(entries) {
      var i :| 0 <= i < |entries| && Ids(entries)[i] == id;
      assert entries[i] in entries;
    }
    if e :| e in entries && e.id == id {
      var i :| 0 <= i < |entries| && entries[i] == e;
      assert Ids(entries)[i] == id;
    }
  }

  lemma SameIdSameEntry(entries: seq<Entry>, e: Entry, f: Entry)
    requires Distinct(Ids(entries)) && e in entries && f in entries && e.id == f.id
    ensures e == f
  {
    var i :| 0 <= i < |entries| && entries[i] == e;
    var j :| 0 <= j < |entries| && entries[j] == f;
    assert Ids(entries)[i] == Ids(entries)[j];
  }

  ghost predicate StandsFor<T, V>(x: T, read: T -> Option<Keyed<V>>, e: Entry, value: Entry -> V) {
    read(x) == Some(Keyed(e.id, value(e)))
  }

  ghost predicate OnlyEntries<T, V>(xs: seq<T>, read: T -> Option<Keyed<V>>, entries: seq<Entry>, value: Entry -> V) {
    forall x :: x in xs && read(x).Some? ==> exists e :: e in entries && StandsFor(x, read, e, value)
  }

  ghost predicate AllEntries<T, V>(xs: seq<T>, read: T -> Option<Keyed<V>>, entries: seq<Entry>, value: Entry -> V) {
    forall e :: e in entries ==> exists x :: x in xs && StandsFor(x, read, e, value)
  }

  lemma FirstIsAnEntry<T, V>(xs: seq<T>, read: T -> Option<Keyed<V>>, entries: seq<Entry>, value: Entry -> V, id: string) returns (e: Entry)
    requires OnlyEntries(xs, read, entries, value)
    requires id in Firsts(xs, read)
    ensures e in entries && e.id == id && Firsts(xs, read)[id] == value(e)
  {
    hide Firsts;
    FirstsHold(xs, read, id);
    var i :| Declares(xs, read, i, id) && read(xs[i]).value.value == Firsts(xs, read)[id];
    e :| e in entries && StandsFor(xs[i], read, e, value);
  }

  lemma EntryIsAFirst<T, V>(xs: seq<T>, read: T -> Option<Keyed<V>>, entries: seq<Entry>, value: Entry -> V, e: Entry)
    requires AllEntries(xs, read, entries, value) && e in entries
    ensures e.id in Firsts(xs, read)
  {
    hide Firsts;
    FirstsHold(xs, read, e.id);
    var x :| x in xs && StandsFor(x, read, e, value);
    var i :| 0 <= i < |xs| && xs[i] == x;
    assert Declares(xs, read, i, e.id);
  }

  // Reading a list in which every element that declares an id stands for one entry.
  lemma FirstsTabulate<T, V>(xs: seq<T>, read: T -> Option<Keyed<V>>, entries: seq<Entry>, value: Entry -> V)
    requires Distinct(Ids(entries))
    requires OnlyEntries(xs, read, entries, value) && AllEntries(xs, read, entries, value)
    ensures Tabulates(Firsts(xs, read), entries, value)
  {
    hide OnlyEntries, AllEntries, Firsts, Ids, Distinct;
    var m := Firsts(xs, read);
    forall e | e in entries
      ensures e.id in m && m[e.id] == value(e)
    {
      EntryIsAFirst(xs, read, entries, value, e);
      var f := FirstIsAnEntry(xs, read, entries, value, e.id);
      SameIdSameEntry(entries, e, f);
    }
    forall id
      ensures id in m <==> id in Ids(entries)
    {
      IdOf(entries, id);
      if id in m {
        var e := FirstIsAnEntry(xs, read, entries, value, id);
      }
    }
  }

  lemma DistinctIdsNotTwice<V>(items: seq<Json>, read: Json -> Option<Keyed<V>>, entries: seq<Entry>)
    requires Distinct(Ids(entries)) && |items| == |entries|
    requires forall i :: 0 <= i < |items| && read(items[i]).Some? ==> read(items[i]).value.id == entries[i].id
    ensures forall id :: !DeclaredTwice(items, read, id)
  {
    assert forall i, id :: Declares(items, read, i, id) ==> Ids(entries)[i] == id;
  }

  lemma EntriesReadBack(c: Context, s: Snapshot, i: nat)
    requires LawfulSpace(c.space) && WellFormed(s) && i < |s.decisions|
    ensures var e := s.decisions[i];
            EntryReader(c)(EncodeEntries(s.decisions)[i])
            == if Strip(c.space, e.title) == "" then None else Some(Keyed(e.id, Summary(e)))
  {
    EntryReadsBack(c, s.decisions[i]);
  }

  lemma SnapshotReadsBack(c: Context, s: Snapshot)
    requires LawfulSpace(c.space) && WellFormed(s)
    ensures var raw := Arr(EncodeEntries(s.decisions));
            && (SnapshotConforms(c, raw) <==> forall e :: e in s.decisions ==> Strip(c.space, e.title) != "")
            && (SnapshotConforms(c, raw) ==> Tabulates(DecisionsOf(c, raw), s.decisions, SummaryValue()))
  {
    var items := EncodeEntries(s.decisions);
    forall i | 0 <= i < |items| {
      EntriesReadBack(c, s, i);
    }
    EntriesConform(c, s.decisions, items);
  }

  lemma EntriesConform(c: Context, entries: seq<Entry>, items: seq<Json>)
    requires Distinct(Ids(entries)) && |items| == |entries|
    requires forall i :: 0 <= i < |items| ==>
                           EntryReader(c)(items[i])
                           == if Strip(c.space, entries[i].title) == "" then None else Some(Keyed(entries[i].id, Summary(entries[i])))
    ensures SnapshotConforms(c, Arr(items)) <==> forall e :: e in entries ==> Strip(c.space, e.title) != ""
    ensures SnapshotConforms(c, Arr(items)) ==> Tabulates(Firsts(items, EntryReader(c)), entries, SummaryValue())
  {
    hide ReadEntry, EntryReader, Strip, DeclaredTwice, Tabulates, Firsts, Summary, Ids, Distinct;
    DistinctIdsNotTwice(items, EntryReader(c), entries);
    ReaderReads(c);
    AllRead(items, EntryReader(c), entries, (e: Entry) => Strip(c.space, e.title) != "");
    if forall e :: e in entries ==> Strip(c.space, e.title) != "" {
      EntriesTabulate(c, entries, items);
    }
  }

  lemma AllRead<V>(items: seq<Json>, read: Json -> Option<V>, entries: seq<Entry>, good: Entry -> bool)
    requires |items| == |entries| && forall i :: 0 <= i < |items| ==> (read(items[i]).Some? <==> good(entries[i]))
    ensures (forall x :: x in items ==> read(x).Some?) <==> (forall e :: e in entries ==> good(e))
  {
    if forall x :: x in items ==> read(x).Some? {
      forall e | e in entries
        ensures good(e)
      {
        var i :| 0 <= i < |entries| && entries[i] == e;
        assert items[i] in items;
      }
    }
    if forall e :: e in entries ==> good(e) {
      assert forall i :: 0 <= i < |entries| ==> entries[i] in entries;
    }
  }

  lemma EntriesTabulate(c: Context, entries: seq<Entry>, items: seq<Json>)
    requires Distinct(Ids(entries)) && |items| == |entries|
    requires forall i :: 0 <= i < |items| ==> EntryReader(c)(items[i]) == Some(Keyed(entries[i].id, Summary(entries[i])))
    ensures Tabulates(Firsts(items, EntryReader(c)), entries, SummaryValue())
  {
    hide Distinct, EntryReader, Tabulates, Firsts, Summary;
    var value := SummaryValue();
    PairsAreEntries(items, EntryReader(c), entries, value);
    FirstsTabulate(items, EntryReader(c), entries, value);
  }

  lemma PairsAreEntries<T, V>(xs: seq<T>, read: T -> Option<Keyed<V>>, entries: seq<Entry>, value: Entry -> V)
    requires |xs| == |entries| && forall i :: 0 <= i < |xs| ==> StandsFor(xs[i], read, entries[i], value)
    ensures OnlyEntries(xs, read, entries, value) && AllEntries(xs, read, entries, value)
  {
    hide StandsFor;
    forall e | e in entries
      ensures exists x :: x in xs && StandsFor(x, read, e, value)
    {
      var i :| 0 <= i < |xs| && entries[i] == e;
      assert xs[i] in xs;
    }
  }

  // A listed file is the ADR of an entry or no ADR at all.
  lemma ListedFile(c: Context, r: Renderer, s: Snapshot, docs: Docs, f: DocFile)
    requires c.yaml == r.yaml && Lawful(c.yaml) && LawfulSpace(c.space) && WellFormed(s)
    requires var dir := Files(Apply(docs, PlanRender(r, s, docs)));
             f.name in dir && f.text == Some(dir[f.name])
    ensures !IsStray(f.name)
    ensures IsAdr(f.name) ==>
              exists e :: e in s.decisions && f.name == FileName(r, e)
                          && ReadDoc(c, f) == Some(Keyed(e.id, AdrFields(e)))
  {
    hide FileName, FileText, Rendered, PlanRender, Apply, Shows, ReadDoc, LawfulSpace, IsGenerated, IsStray, IsAdr, DecId;
    ApplyRenders(r, s, docs);
    RenderedNames(r, s.decisions, f.name);
    if f.name in Rendered(r, s.decisions) {
      var e :| e in s.decisions && f.name == FileName(r, e);
      RenderedTexts(r, s.decisions, e);
      assert f == DocFile(FileName(r, e), f.text);
      AdrReadsBack(c, r, e, f.text.value);
      FileNameIsAdr(r, e);
    }
    AdrIsNotStray(f.name);
  }

  lemma AdrIsNotStray(name: string)
    ensures IsAdr(name) ==> !IsStray(name) && IsGenerated(name)
    ensures IsStray(name) ==> IsGenerated(name)
  {
    assert IsAdr(name) ==> name[..4][0] == 'D';
  }

  lemma EntryIsListed(c: Context, r: Renderer, s: Snapshot, docs: Docs, files: seq<DocFile>, e: Entry)
    requires c.yaml == r.yaml && Lawful(c.yaml) && LawfulSpace(c.space) && WellFormed(s) && e in s.decisions
    requires Lists(Some(files), Apply(docs, PlanRender(r, s, docs)).decisions)
    ensures exists f :: f in files && f.name == FileName(r, e) && ReadDoc(c, f) == Some(Keyed(e.id, AdrFields(e)))
  {
    var after := Apply(docs, PlanRender(r, s, docs));
    ApplyRenders(r, s, docs);
    RenderedTexts(r, s.decisions, e);
    hide ReadDoc, FileText, FileName, Rendered, PlanRender, Apply, Shows;
    var f :| f in files && f.name == FileName(r, e);
    assert f == DocFile(FileName(r, e), f.text);
    AdrReadsBack(c, r, e, f.text.value);
  }

  function AdrValue(): Entry -> Record {
    e => AdrFields(e)
  }

  // The file an entry renders to, and what the linter reads in it.
  ghost predicate IsAdrOf(c: Context, r: Renderer, f: DocFile, e: Entry) {
    f.name == FileName(r, e) && StandsFor(f, DocReader(c), e, AdrValue())
  }

  ghost predicate Mirrors(c: Context, r: Renderer, entries: seq<Entry>, files: seq<DocFile>) {
    && (forall f :: f in files ==> !IsStray(f.name) && (IsAdr(f.name) ==> exists e :: e in entries && IsAdrOf(c, r, f, e)))
    && (forall e :: e in entries ==> exists f :: f in files && IsAdrOf(c, r, f, e))
  }

  lemma FilesMirrorEntries(c: Context, r: Renderer, s: Snapshot, docs: Docs, files: seq<DocFile>)
    requires c.yaml == r.yaml && Lawful(c.yaml) && LawfulSpace(c.space) && WellFormed(s)
    requires Lists(Some(files), Apply(docs, PlanRender(r, s, docs)).decisions)
    ensures Mirrors(c, r, s.decisions, files)
  {
    DocsAreAdrs(c);
    hide WellFormed, PlanRender, Apply, ReadDoc, FileName, FileText, DocReader, AdrFields, IsStray, IsAdr;
    forall f | f in files
      ensures !IsStray(f.name) && (IsAdr(f.name) ==> exists e :: e in s.decisions && IsAdrOf(c, r, f, e))
    {
      ListedFile(c, r, s, docs, f);
      if IsAdr(f.name) {
        var e :| e in s.decisions && f.name == FileName(r, e)
                 && ReadDoc(c, f) == Some(Keyed(e.id, AdrFields(e)));
        assert IsAdrOf(c, r, f, e);
      }
    }
    forall e | e in s.decisions
      ensures exists f :: f in files && IsAdrOf(c, r, f, e)
    {
      EntryIsListed(c, r, s, docs, files, e);
      var f :| f in files && f.name == FileName(r, e) && ReadDoc(c, f) == Some(Keyed(e.id, AdrFields(e)));
      assert IsAdrOf(c, r, f, e);
    }
  }

  lemma MirrorsConform(c: Context, r: Renderer, entries: seq<Entry>, files: seq<DocFile>)
    requires Distinct(Ids(entries)) && Mirrors(c, r, entries, files)
    requires forall i, j :: 0 <= i < j < |files| ==> files[i].name != files[j].name
    ensures DocsConform(c, files)
  {
    DocsAreAdrs(c);
    hide IsStray, IsAdr, ReadDoc, DocReader, FileName, AdrFields, Ids, Distinct;
    forall id
      ensures !DeclaredTwice(files, DocReader(c), id)
    {
      forall i, j | i < j && Declares(files, DocReader(c), i, id)
        ensures !Declares(files, DocReader(c), j, id)
      {
        var e :| e in entries && IsAdrOf(c, r, files[i], e);
        if Declares(files, DocReader(c), j, id) {
          var f :| f in entries && IsAdrOf(c, r, files[j], f);
          SameIdSameEntry(entries, e, f);
        }
      }
    }
  }

  lemma MirrorsTabulate(c: Context, r: Renderer, entries: seq<Entry>, files: seq<DocFile>)
    requires Distinct(Ids(entries)) && Mirrors(c, r, entries, files)
    ensures Tabulates(Firsts(files, DocReader(c)), entries, AdrValue())
  {
    DocsAreAdrs(c);
    hide IsStray, IsAdr, ReadDoc, DocReader, FileName, AdrFields, Ids, Distinct, Tabulates, StandsFor;
    assert OnlyEntries(files, DocReader(c), entries, AdrValue());
    assert AllEntries(files, DocReader(c), entries, AdrValue());
    FirstsTabulate(files, DocReader(c), entries, AdrValue());
  }

  lemma RefsAreMirrored(s: Snapshot, decisions: Decisions, e: Entry)
    requires WellFormed(s) && e in s.decisions && Tabulates(decisions, s.decisions, SummaryValue())
    ensures Mirrored(Older(decisions), e.id, e.supersedes) && Mirrored(Newer(decisions), e.id, e.supersededBy)
  {
    hide DecId, Distinct;
    forall t | t in e.supersedes || t in e.supersededBy
      ensures t in decisions
      ensures t in e.supersedes ==> e.id in decisions[t].supersededBy
      ensures t in e.supersededBy ==> e.id in decisions[t].supersedes
    {
      IdOf(s.decisions, t);
      var f :| f in s.decisions && f.id == t;
      assert decisions[t] == Summary(f);
    }
  }

  lemma FieldsAgree(c: Context, e: Entry)
    requires LawfulSpace(c.space) && e.status in {"proposed", "accepted", "superseded"}
    ensures Matches(c, Get(AdrFields(e), "title"), e.title) <==> Strip(c.space, e.title) == e.title
    ensures Matches(c, Get(AdrFields(e), "status"), e.status)
  {
    AdrFieldsAre(e);
    hide AdrFields;
    LettersAreKept(c.space, e.status);
  }

  lemma DecisionAgrees(c: Context, s: Snapshot, docs: map<string, Record>, decisions: Decisions, e: Entry)
    requires LawfulSpace(c.space) && WellFormed(s) && e in s.decisions
    requires Tabulates(docs, s.decisions, AdrValue()) && Tabulates(decisions, s.decisions, SummaryValue())
    ensures Agrees(c, docs, decisions, e.id) <==> Strip(c.space, e.title) == e.title
  {
    RefsAreMirrored(s, decisions, e);
    FieldsAgree(c, e);
    hide AdrFields, Matches, Mirrored, Newer, Older, Strip, WellLinked, DecId, Ids;
  }

  lemma DecisionsAgree(c: Context, s: Snapshot, docs: map<string, Record>, decisions: Decisions)
    requires LawfulSpace(c.space) && WellFormed(s)
    requires Tabulates(docs, s.decisions, AdrValue()) && Tabulates(decisions, s.decisions, SummaryValue())
    ensures DecisionsConform(c, docs, decisions) <==> forall e :: e in s.decisions ==> Strip(c.space, e.title) == e.title
  {
    hide WellFormed, AdrValue, SummaryValue, Agrees, Strip, Ids;
    assert docs.Keys == decisions.Keys;
    forall e | e in s.decisions
      ensures Agrees(c, docs, decisions, e.id) <==> Strip(c.space, e.title) == e.title
    {
      DecisionAgrees(c, s, docs, decisions, e);
    }
    forall id | id in decisions
      ensures exists e :: e in s.decisions && e.id == id
    {
      IdOf(s.decisions, id);
    }
  }

  // Linting a snapshot against its own render reports nothing exactly when there
  // is a directory to read and every title is trimmed and not empty.
  lemma OwnRenderConformsExactly(c: Context, r: Renderer, s: Snapshot, docs: Docs, files: Option<seq<DocFile>>)
    requires c.yaml == r.yaml && Lawful(c.yaml) && LawfulSpace(c.space) && WellFormed(s)
    requires Lists(files, Apply(docs, PlanRender(r, s, docs)).decisions)
    ensures Conformant(c, files, Some(Encode(s)))
            <==> (docs.decisions.Some? || s.decisions != []) && forall e :: e in s.decisions ==> CleanTitle(c, e.title)
  {
    EncodeHas(s);
    DirectoryExists(r, s, docs);
    if files.Some? {
      FilesMirrorEntries(c, r, s, docs, files.value);
      MirrorsConform(c, r, s.decisions, files.value);
      MirrorsTabulate(c, r, s.decisions, files.value);
      SnapshotReadsBack(c, s);
      hide Encode, Lists, PlanRender, Apply, Mirrors, DocsConform, SnapshotConforms, DecisionsConform, Strip, Tabulates, Firsts, EncodeEntries;
      var raw := Arr(EncodeEntries(s.decisions));
      if SnapshotConforms(c, raw) {
        DecisionsAgree(c, s, DocsOf(c, files), DecisionsOf(c, raw));
      }
    }
  }

  lemma DirectoryExists(r: Renderer, s: Snapshot, docs: Docs)
    ensures Apply(docs, PlanRender(r, s, docs)).decisions.Some? <==> docs.decisions.Some? || s.decisions != []
  {
    hide FileName, FileText;
    var changed := PlanRender(r, s, docs).changed;
    if docs.decisions.None? && s.decisions != [] {
      RenderedNames(r, s.decisions, FileName(r, s.decisions[0]));
      assert FileName(r, s.decisions[0]) in changed;
    }
  }

  method LintOwnRender(c: Context, r: Renderer, s: Snapshot, docs: Docs, files: Option<seq<DocFile>>) returns (report: Report)
    requires c.yaml == r.yaml && Lawful(c.yaml) && LawfulSpace(c.space) && WellFormed(s)
    requires Lists(files, Apply(docs, PlanRender(r, s, docs)).decisions)
    ensures report.issues == []
            <==> (docs.decisions.Some? || s.decisions != []) && forall e :: e in s.decisions ==> CleanTitle(c, e.title)
  {
    hide *;
    report := RunSnapshotLint(c, files, Some(Encode(s)));
    OwnRenderConformsExactly(c, r, s, docs, files);
    CleanExactlyWhenConformant(c, files, Some(Encode(s)));
    assert report.issues == [] <==> forall i :: i !in report.issues by {
      if report.issues != [] {
        assert report.issues[0] in report.issues;
      }
    }
  }

  // Every snapshot the merge builds from rows with well-formed ids is well formed.
  lemma BuiltSnapshotIsWellFormed(
      rank: string -> int, sameTitle: (string, string) -> bool,
      project: string, decisions: seq<Decision>, notes: seq<Note>, entries: seq<Entry>)
    requires forall d :: d in decisions ==> DecId(d.id)
    requires IsSnapshot(Read(decisions, notes), rank, sameTitle, entries)
    ensures WellFormed(Snapshot(EXPORT_FORMAT, project, entries))
  {
    SnapshotIsWellLinked(decisions, notes, rank, sameTitle, entries);
    ReadKeys(decisions, notes, sameTitle);
    forall e | e in entries
      ensures DecId(e.id) && e.status in {"proposed", "accepted", "superseded"}
    {
      IndexHoldsTheLast(decisions, DecisionId, e.id);
      assert Describes(Read(decisions, notes), sameTitle, e);
    }
  }
}
