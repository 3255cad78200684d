// The rendered export of a snapshot: render_files, plan_render and the apply
// mode of scripts/dec_export.py. Files are read with universal newlines and
// written as they are.
module DecRender {
  import opened Basics
  import opened JsonValues
  import opened TextMode
  import opened AdrMarkdown
  import opened DecSnapshot

  const EXPORT_SOURCE := "server-export"

  // What the render takes from elsewhere: YAML, `isspace`, the slug of a title,
  // and the fixed lines of the index.
  datatype Renderer = Renderer(
    yaml: Yaml,
    space: char -> bool,
    slug: string -> string,
    header: string,
    count: nat -> string)

  // The texts of the program itself hold no carriage return, the index opens with
  // a character.
  ghost predicate Plain(r: Renderer) {
    && Lawful(r.yaml) && LawfulSpace(r.space)
    && (forall title :: '\r' !in r.slug(title))
    && (forall n :: '\r' !in r.count(n))
    && r.header != "" && !r.space(r.header[0]) && '\r' !in r.header
  }

  // docs/ on disk: the index and the files of docs/decisions/, absent before a
  // first render.
  datatype Docs = Docs(index: Option<string>, decisions: Option<map<string, string>>)

  // --- bodies -------------------------------------------------------------------

  predicate LineFeed(c: char) {
    c == '\n'
  }

  // A heading `# DEC-...` at the start, with the line ends after it.
  function DropTitle(space: char -> bool, text: string): string {
    var line := Lstrip(space, text);
    if !MatchesAt(line, "#", 0) then text
    else
      var id := Lstrip(space, line[1..]);
      if id == line[1..] || !MatchesAt(id, "DEC-", 0) || |id| == 4 || !IsDigit(id[4]) then text
      else
        var end := FirstAt(id, "\n", 5);
        if end.None? then text else Lstrip(LineFeed, id[end.value..])
  }

  function Clean(space: char -> bool, body: string): string {
    Strip(space, DropTitle(space, Unix(body)))
  }

  // Cleaning leaves a carriage return only where the body has a lone one.
  lemma CleanedReturns(space: char -> bool, body: string)
    requires '\r' in Clean(space, body)
    ensures exists i :: LoneAt(body, i)
  {
    StripKeeps(space, DropTitle(space, Unix(body)));
    DropKeeps(space, Unix(body));
    hide *;
    CleanIs(space, body);
    UnixKeepsLoneReturns(body);
  }

  lemma CleanIs(space: char -> bool, body: string)
    ensures Clean(space, body) == Strip(space, DropTitle(space, Unix(body)))
  {
  }

  lemma DropKeeps(space: char -> bool, text: string)
    ensures forall c :: c in DropTitle(space, text) ==> c in text
  {
    hide Lstrip;
    var line := Lstrip(space, text);
    LstripKeeps(space, text);
    if MatchesAt(line, "#", 0) {
      var id := Lstrip(space, line[1..]);
      LstripKeeps(space, line[1..]);
      TailKeeps(line, 1);
      var end := FirstAt(id, "\n", 5);
      if end.Some? {
        LstripKeeps(LineFeed, id[end.value..]);
        TailKeeps(id, end.value);
      }
    }
  }

  lemma TailKeeps(s: string, k: nat)
    requires k <= |s|
    ensures forall c :: c in s[k..] ==> c in s
  {
  }

  lemma LstripKeeps(space: char -> bool, s: string)
    ensures forall c :: c in Lstrip(space, s) ==> c in s
  {
    var k := LstripSplits(space, s);
  }

  lemma StripKeeps(space: char -> bool, s: string)
    ensures forall c :: c in Strip(space, s) ==> c in s
  {
    var k := LstripSplits(space, s);
    RstripSplits(space, s[k..]);
  }

  // A lone carriage return between two letters stays.
  lemma LoneReturnStays(space: char -> bool)
    requires LawfulSpace(space)
    ensures Clean(space, "a\rb") == "a\rb"
  {
    var body := "a\rb";
    assert Unix(body) == body by {
      assert body[1..][1..] == "b" && body[1..] == "\rb";
    }
    assert Lstrip(space, body) == body;
    StripTrims(space, body);
  }

  function FileName(r: Renderer, e: Entry): string {
    e.id + "-" + r.slug(e.title) + ".md"
  }

  function Strings(ids: seq<string>): Json {
    Arr(seq(|ids|, i requires 0 <= i < |ids| => Str(ids[i])))
  }

  function Optional(s: Option<string>): Json {
    if s.Some? then Str(s.value) else Null
  }

  function AdrFields(e: Entry): Record {
    map[
      "id" := Str(e.id),
      "title" := Str(e.title),
      "status" := Str(e.status),
      "date" := Optional(e.date),
      "supersedes" := Strings(e.supersedes),
      "superseded_by" := Strings(e.supersededBy),
      "source" := Str(EXPORT_SOURCE)
    ]
  }

  lemma AdrFieldsAre(e: Entry)
    ensures var f := AdrFields(e);
            && Get(f, "id") == Str(e.id) && Get(f, "title") == Str(e.title) && Get(f, "status") == Str(e.status)
            && Known(f) == f
  {
  }

  function FileText(r: Renderer, e: Entry): string {
    AdrFieldsAre(e);
    RenderAdr(r.yaml, AdrFields(e), Clean(r.space, e.body))
  }

  // --- render ---------------------------------------------------------------------

  function Rendered(r: Renderer, entries: seq<Entry>): map<string, string>
    decreases |entries|
  {
    if entries == [] then map[]
    else
      var last := entries[|entries| - 1];
      Rendered(r, entries[..|entries| - 1])[FileName(r, last) := FileText(r, last)]
  }

  method RenderFiles(r: Renderer, entries: seq<Entry>) returns (files: map<string, string>)
    ensures files == Rendered(r, entries)
  {
    hide FileName, FileText;
    files := map[];
    for i := 0 to |entries|
      invariant files == Rendered(r, entries[..i])
    {
      assert entries[..i + 1][..i] == entries[..i];
      files := files[FileName(r, entries[i]) := FileText(r, entries[i])];
    }
    assert entries[..|entries|] == entries;
  }

  lemma {:induction false} RenderedNames(r: Renderer, entries: seq<Entry>, name: string)
    ensures name in Rendered(r, entries) <==> exists e :: e in entries && name == FileName(r, e)
    decreases |entries|
  {
    if entries != [] {
      hide FileName, FileText;
      var front, last := entries[..|entries| - 1], entries[|entries| - 1];
      assert forall e :: e in entries <==> e in front || e == last;
      RenderedNames(r, front, name);
    }
  }

  // Ids made of digits keep file names apart whatever the slugs are.
  lemma NamesAreApart(r: Renderer, e: Entry, f: Entry)
    requires DecId(e.id) && DecId(f.id) && FileName(r, e) == FileName(r, f)
    ensures e.id == f.id
  {
    var name := FileName(r, e);
    var short, long := if |e.id| <= |f.id| then e.id else f.id, if |e.id| <= |f.id| then f.id else e.id;
    assert name[..|short|] == short && name[..|long|] == long;
    assert name[|short|] == '-';
    assert forall i :: 4 <= i < |long| ==> long[i] == long[4..][i - 4] && long[i] in long[4..];
    assert forall i :: 4 <= i < |long| ==> IsDigit(long[i]) && name[i] != '-';
  }

  lemma OwnName(r: Renderer, entries: seq<Entry>, e: Entry, f: Entry)
    requires e in entries && f in entries && DecId(e.id) && DecId(f.id)
    requires Distinct(Ids(entries)) && FileName(r, e) == FileName(r, f)
    ensures e == f
  {
    NamesAreApart(r, e, f);
    hide FileName, DecId;
    var i :| 0 <= i < |entries| && entries[i] == e;
    var j :| 0 <= j < |entries| && entries[j] == f;
    assert Ids(entries)[i] == Ids(entries)[j];
  }

  lemma {:induction false} LastTextStays(r: Renderer, entries: seq<Entry>, e: Entry)
    requires e in entries && forall f :: f in entries && FileName(r, e) == FileName(r, f) ==> f == e
    ensures FileName(r, e) in Rendered(r, entries) && Rendered(r, entries)[FileName(r, e)] == FileText(r, e)
    decreases |entries|
  {
    hide FileName, FileText;
    var n := |entries| - 1;
    if e != entries[n] {
      LastTextStays(r, entries[..n], e);
    }
  }

  lemma RenderedTexts(r: Renderer, entries: seq<Entry>, e: Entry)
    requires e in entries && forall f :: f in entries ==> DecId(f.id)
    requires Distinct(Ids(entries))
    ensures FileName(r, e) in Rendered(r, entries) && Rendered(r, entries)[FileName(r, e)] == FileText(r, e)
  {
    forall f | f in entries && FileName(r, e) == FileName(r, f)
      ensures f == e
    {
      OwnName(r, entries, e, f);
    }
    LastTextStays(r, entries, e);
  }

  // --- the index ------------------------------------------------------------------

  function Escaped(title: string): (r: string)
    ensures '\r' in r <==> '\r' in title
  {
    if title == "" then ""
    else (if title[0] == '|' then "\\|" else [title[0]]) + Escaped(title[1..])
  }

  function Row(r: Renderer, e: Entry): string {
    var path := "decisions/" + FileName(r, e);
    "\n| " + e.id + " | " + Escaped(e.title) + " | " + e.status + " | [" + path + "](" + path + ") |"
  }

  function Rows(r: Renderer, entries: seq<Entry>): string
    decreases |entries|
  {
    if entries == [] then ""
    else Rows(r, entries[..|entries| - 1]) + Row(r, entries[|entries| - 1])
  }

  const TITLES := "| ID | Titre " + "| Statut | ADR |"
  const RULE := "|---|---|---|---|"

  // Everything before the rows.
  function IndexTop(r: Renderer, n: nat, preamble: Option<string>): string {
    r.header + "\n\n" + (if preamble.Some? then Strip(r.space, preamble.value) + "\n\n" else "")
    + "\n" + r.count(n) + "\n\n\n" + TITLES + "\n" + RULE
  }

  function IndexText(r: Renderer, entries: seq<Entry>, preamble: Option<string>): string {
    Strip(r.space, IndexTop(r, |entries|, preamble) + Rows(r, entries)) + "\n"
  }

  // --- plan and apply ---------------------------------------------------------------

  datatype Plan = Plan(index: Option<string>, changed: map<string, string>, stale: set<string>)

  const PREAMBLE := "_preamble.md"

  function Files(docs: Docs): map<string, string> {
    docs.decisions.GetOr(map[])
  }

  function Preamble(docs: Docs): Option<string> {
    if PREAMBLE in Files(docs) then Some(Universal(Files(docs)[PREAMBLE])) else None
  }

  function Index(r: Renderer, s: Snapshot, docs: Docs): string {
    IndexText(r, s.decisions, Preamble(docs))
  }

  predicate IsGenerated(name: string) {
    EndsWith(name, ".md") && !StartsWith(name, "_")
  }

  function PlanRender(r: Renderer, s: Snapshot, docs: Docs): Plan {
    var rendered, index := Rendered(r, s.decisions), Index(r, s, docs);
    Plan(
      if docs.index.Some? && Universal(docs.index.value) == index then None else Some(index),
      map name | name in rendered && (name !in Files(docs) || Universal(Files(docs)[name]) != rendered[name]) :: rendered[name],
      set name | name in Files(docs) && IsGenerated(name) && name !in rendered)
  }

  // Writing creates docs/decisions/ when there is something to put in it.
  function Apply(docs: Docs, plan: Plan): Docs {
    Docs(
      if plan.index.Some? then plan.index else docs.index,
      if docs.decisions.None? && plan.changed == map[] then None
      else Some((Files(docs) + plan.changed) - plan.stale))
  }

  // The plan of a second render.
  function Again(r: Renderer, s: Snapshot, docs: Docs): Plan {
    PlanRender(r, s, Apply(docs, PlanRender(r, s, docs)))
  }

  // A file that was written, or that reads as what would be written.
  predicate Shows(file: string, text: string) {
    file == text || Universal(file) == text
  }

  lemma ShownReadsAsText(file: string, text: string)
    requires Shows(file, text)
    ensures Universal(file) == Universal(text)
  {
    UniversalIsIdempotent(file);
  }

  // It reads as the text itself exactly when that holds no carriage return.
  lemma ShownIsText(file: string, text: string)
    requires Shows(file, text)
    ensures Universal(file) == text <==> '\r' !in text
  {
    ShownReadsAsText(file, text);
    UniversalIsExact(text);
  }

  // After a render the directory holds the rendered files and what it had that
  // no render generates.
  lemma ApplyRenders(r: Renderer, s: Snapshot, docs: Docs)
    ensures var rendered, after := Rendered(r, s.decisions), Apply(docs, PlanRender(r, s, docs));
            && after.index.Some? && Shows(after.index.value, Index(r, s, docs))
            && (forall name :: name in Files(after) <==>
                                 name in rendered || (name in Files(docs) && !IsGenerated(name)))
            && (forall name :: name in rendered ==> Shows(Files(after)[name], rendered[name]))
            && (forall name :: name in Files(after) && name !in rendered ==> Files(after)[name] == Files(docs)[name])
  {
    hide Rendered, IsGenerated, Index;
  }

  function WithReturns(rendered: map<string, string>): map<string, string> {
    map name | name in rendered && '\r' in rendered[name] :: rendered[name]
  }

  ghost predicate NoReturnIn(files: map<string, string>) {
    forall name :: name in files ==> '\r' !in files[name]
  }

  // Rendering again rewrites exactly the files whose text holds a carriage return.
  lemma RenderAgain(r: Renderer, s: Snapshot, docs: Docs)
    requires forall e :: e in s.decisions ==> DecId(e.id)
    ensures var rendered, index := Rendered(r, s.decisions), Index(r, s, docs);
            var again := Again(r, s, docs);
            && again.index == (if '\r' in index then Some(index) else None)
            && again.changed == WithReturns(rendered)
            && again.stale == {}
  {
    hide Rendered, IsGenerated, Index, Apply, Shows, Universal, DecId;
    var rendered, after := Rendered(r, s.decisions), Apply(docs, PlanRender(r, s, docs));
    PreambleStays(r, s, docs);
    ApplyRenders(r, s, docs);
    ShownIsText(after.index.value, Index(r, s, docs));
    forall name | name in rendered
      ensures Universal(Files(after)[name]) == rendered[name] <==> '\r' !in rendered[name]
    {
      ShownIsText(Files(after)[name], rendered[name]);
    }
  }

  lemma PreambleStays(r: Renderer, s: Snapshot, docs: Docs)
    requires forall e :: e in s.decisions ==> DecId(e.id)
    ensures Index(r, s, Apply(docs, PlanRender(r, s, docs))) == Index(r, s, docs)
  {
    hide Rendered, IsGenerated, Apply, FileName, IndexText, PlanRender, Shows, Universal;
    ApplyRenders(r, s, docs);
    NotGenerated(r, s.decisions);
  }

  lemma NotGenerated(r: Renderer, entries: seq<Entry>)
    requires forall e :: e in entries ==> DecId(e.id)
    ensures PREAMBLE !in Rendered(r, entries) && !IsGenerated(PREAMBLE)
  {
    hide FileName, Rendered;
    RenderedNames(r, entries, PREAMBLE);
    forall e | e in entries
      ensures FileName(r, e) != PREAMBLE
    {
      OpensWithLetter(r, e);
    }
  }

  lemma OpensWithLetter(r: Renderer, e: Entry)
    requires DecId(e.id)
    ensures FileName(r, e) != "" && FileName(r, e)[0] == 'D'
  {
    assert e.id[..4][0] == 'D';
  }

  // `render --check` passes after `--apply` exactly when no rendered text holds
  // a carriage return.
  lemma RenderSettles(r: Renderer, s: Snapshot, docs: Docs)
    requires forall e :: e in s.decisions ==> DecId(e.id)
    ensures Again(r, s, docs) == Plan(None, map[], {})
            <==> '\r' !in Index(r, s, docs) && NoReturnIn(Rendered(r, s.decisions))
  {
    hide Index, Again, WithReturns, NoReturnIn;
    RenderAgain(r, s, docs);
    NoneWithReturns(Rendered(r, s.decisions));
  }

  lemma NoneWithReturns(rendered: map<string, string>)
    ensures WithReturns(rendered) == map[] <==> NoReturnIn(rendered)
  {
    var some := WithReturns(rendered);
    assert forall name :: name in some <==> name in rendered && '\r' in rendered[name];
    if NoReturnIn(rendered) {
      assert some == map[];
    }
  }

  // --- which texts those are ------------------------------------------------------------

  lemma ReturnInFile(r: Renderer, e: Entry)
    requires Plain(r) && DecId(e.id)
    ensures '\r' in FileText(r, e) <==> '\r' in e.title || '\r' in Clean(r.space, e.body)
  {
    NoReturnInId(e.id);
    AdrFieldsAre(e);
    hide AdrFields, Known, Clean, LawfulSpace, DecId;
  }

  lemma NoReturnInId(id: string)
    requires DecId(id)
    ensures '\r' !in id
  {
    assert id == id[..4] + id[4..];
  }

  ghost predicate Exportable(entries: seq<Entry>) {
    && Distinct(Ids(entries))
    && forall e :: e in entries ==> DecId(e.id) && e.status in {"proposed", "accepted", "superseded"}
  }

  lemma {:induction false} ReturnInRows(r: Renderer, entries: seq<Entry>)
    requires Plain(r) && forall e :: e in entries ==> DecId(e.id) && '\r' !in e.status
    ensures '\r' in Rows(r, entries) <==> exists e :: e in entries && '\r' in e.title
    ensures if entries == [] then Rows(r, entries) == "" else Rows(r, entries)[|Rows(r, entries)| - 1] == '|'
    decreases |entries|
  {
    if entries != [] {
      var front, last := entries[..|entries| - 1], entries[|entries| - 1];
      assert forall e :: e in entries <==> e in front || e == last;
      NoReturnInId(last.id);
      ReturnInRows(r, front);
      hide DecId, LawfulSpace, Lawful;
    }
  }

  lemma IndexTopIsPlain(r: Renderer, n: nat, preamble: Option<string>)
    requires Plain(r) && (preamble.Some? ==> '\r' !in preamble.value)
    ensures var top := IndexTop(r, n, preamble);
            '\r' !in top && top != "" && top[0] == r.header[0] && top[|top| - 1] == '|'
  {
    hide Strip, LawfulSpace, Lawful;
    if preamble.Some? {
      StripKeeps(r.space, preamble.value);
    }
    assert '\r' !in TITLES && '\r' !in RULE;
  }

  lemma IndexIsUntrimmed(r: Renderer, entries: seq<Entry>, preamble: Option<string>)
    requires Plain(r) && forall e :: e in entries ==> DecId(e.id) && '\r' !in e.status
    requires preamble.Some? ==> '\r' !in preamble.value
    ensures IndexText(r, entries, preamble) == IndexTop(r, |entries|, preamble) + Rows(r, entries) + "\n"
  {
    hide Rows, IndexTop, Lawful, DecId, Strip, LawfulSpace;
    IndexTopIsPlain(r, |entries|, preamble);
    ReturnInRows(r, entries);
    BarsStay(r.space, IndexTop(r, |entries|, preamble), Rows(r, entries));
  }

  lemma BarsStay(space: char -> bool, top: string, rows: string)
    requires LawfulSpace(space) && top != "" && !space(top[0]) && top[|top| - 1] == '|'
    requires rows != "" ==> rows[|rows| - 1] == '|'
    ensures Strip(space, top + rows) == top + rows
  {
    hide Strip;
    assert (top + rows)[|top + rows| - 1] == '|';
    StripTrims(space, top + rows);
  }

  lemma ReturnInIndex(r: Renderer, entries: seq<Entry>, preamble: Option<string>)
    requires Plain(r) && forall e :: e in entries ==> DecId(e.id) && '\r' !in e.status
    requires preamble.Some? ==> '\r' !in preamble.value
    ensures '\r' in IndexText(r, entries, preamble) <==> exists e :: e in entries && '\r' in e.title
  {
    hide Rows, IndexTop, Lawful, DecId, LawfulSpace, IndexText;
    IndexIsUntrimmed(r, entries, preamble);
    IndexTopIsPlain(r, |entries|, preamble);
    ReturnInRows(r, entries);
  }

  ghost predicate NoReturns(r: Renderer, entries: seq<Entry>) {
    forall e :: e in entries ==> '\r' !in e.title && '\r' !in Clean(r.space, e.body)
  }

  lemma TitlesHaveNone(r: Renderer, entries: seq<Entry>)
    requires NoReturns(r, entries)
    ensures forall e :: e in entries ==> '\r' !in e.title
  {
  }

  // On the snapshot: no title and no cleaned body holds a carriage return.
  lemma RenderSettlesExactly(r: Renderer, s: Snapshot, docs: Docs)
    requires Plain(r) && Exportable(s.decisions)
    ensures Again(r, s, docs) == Plan(None, map[], {})
            <==> NoReturns(r, s.decisions)
  {
    hide Index, IndexText, Again, Clean, FileName, FileText, Plain, DecId, Escaped, NoReturnIn;
    RenderSettles(r, s, docs);
    StatusesAreWords(s.decisions);
    IndexIs(r, s, docs);
    ReturnInIndex(r, s.decisions, Preamble(docs));
    RenderedReturns(r, s.decisions);
    if NoReturns(r, s.decisions) { TitlesHaveNone(r, s.decisions); }
  }

  lemma IndexIs(r: Renderer, s: Snapshot, docs: Docs)
    ensures Index(r, s, docs) == IndexText(r, s.decisions, Preamble(docs))
    ensures Preamble(docs).Some? ==> '\r' !in Preamble(docs).value
  {
  }

  lemma RenderedReturns(r: Renderer, entries: seq<Entry>)
    requires Plain(r) && Exportable(entries)
    ensures NoReturnIn(Rendered(r, entries)) <==> NoReturns(r, entries)
  {
    hide Rendered, FileText, FileName, Clean, Plain, DecId;
    forall e | e in entries
      ensures FileName(r, e) in Rendered(r, entries)
      ensures '\r' in Rendered(r, entries)[FileName(r, e)] <==> '\r' in e.title || '\r' in Clean(r.space, e.body)
    {
      RenderedTexts(r, entries, e);
      ReturnInFile(r, e);
    }
    forall name | name in Rendered(r, entries)
      ensures exists e :: e in entries && name == FileName(r, e)
    {
      RenderedNames(r, entries, name);
    }
  }

  lemma StatusesAreWords(entries: seq<Entry>)
    requires Exportable(entries)
    ensures forall e :: e in entries ==> '\r' !in e.status
  {
  }

  ghost predicate OnlyLineEnds(body: string) {
    forall i :: !LoneAt(body, i)
  }

  // Line ends of either kind do no harm; only a lone carriage return does.
  lemma LineEndsSettle(r: Renderer, s: Snapshot, docs: Docs)
    requires Plain(r) && Exportable(s.decisions)
    requires forall e :: e in s.decisions ==> '\r' !in e.title && OnlyLineEnds(e.body)
    ensures Again(r, s, docs) == Plan(None, map[], {})
  {
    hide Again, Clean, Plain, DecId, OnlyLineEnds;
    RenderSettlesExactly(r, s, docs);
    forall e | e in s.decisions
      ensures '\r' !in Clean(r.space, e.body)
    {
      OnlyLineEndsClean(r.space, e.body);
    }
  }

  lemma OnlyLineEndsClean(space: char -> bool, body: string)
    requires OnlyLineEnds(body)
    ensures '\r' !in Clean(space, body)
  {
    hide Clean, LoneAt;
    if '\r' in Clean(space, body) {
      CleanedReturns(space, body);
    }
  }

  // A body `a\rb` is rewritten by every render that follows.
  lemma LoneReturnNeverSettles(r: Renderer, s: Snapshot, docs: Docs, e: Entry)
    requires Plain(r) && Exportable(s.decisions) && e in s.decisions && e.body == "a\rb"
    ensures FileName(r, e) in Again(r, s, docs).changed
  {
    RenderAgain(r, s, docs);
    RenderedTexts(r, s.decisions, e);
    ReturnInFile(r, e);
    LoneReturnStays(r.space);
  }

  // --- what the files and the index say ----------------------------------------------------

  lemma StringsAre(ids: seq<string>, v: Json)
    ensures Strings(ids) == v <==> v.Arr? && |v.items| == |ids| && forall i :: 0 <= i < |ids| ==> v.items[i] == Str(ids[i])
  {
    if v.Arr? && |v.items| == |ids| && forall i :: 0 <= i < |ids| ==> v.items[i] == Str(ids[i]) {
      assert v.items == Strings(ids).items;
    }
  }

  // The front matter of a file names everything but body and task, and its source.
  lemma FileSays(e: Entry)
    ensures var f := AdrFields(e);
            && Get(f, "id") == Str(e.id) && Get(f, "title") == Str(e.title) && Get(f, "status") == Str(e.status)
            && (if e.date.Some? then Get(f, "date") == Str(e.date.value) else Get(f, "date") == Null)
            && Get(f, "supersedes") == Strings(e.supersedes) && Get(f, "superseded_by") == Strings(e.supersededBy)
            && Get(f, "source") == Str("server-export")
  {
  }

  // Read again, a file has its decision's cleaned body exactly when that is not
  // empty and the title is one line.
  lemma BodyComesBack(r: Renderer, e: Entry)
    requires Plain(r) && DecId(e.id)
    ensures var read := ParseAdr(r.yaml, r.space, FileText(r, e));
            && read.Some? && read.value.fields == Obj(AdrFields(e))
            && (read.value.body == Clean(r.space, e.body) <==> Clean(r.space, e.body) != "" && OneLine(r.space, e.title))
  {
    AdrFieldsAre(e);
    RoundTripsExactly(r.yaml, r.space, AdrFields(e), Clean(r.space, e.body));
    StripTrims(r.space, DropTitle(r.space, Unix(e.body)));
    NoLineFeedInId(e.id);
    hide ParseAdr, RenderAdr, AdrFields, DropTitle, OneLine, Strip, Stripped, Unix;
  }

  lemma NoLineFeedInId(id: string)
    requires DecId(id)
    ensures '\n' !in id
  {
    assert id == id[..4] + id[4..];
  }

  lemma {:induction false} SameBreaks(text: string)
    requires '\r' !in text
    ensures Unix(text) == text
    decreases |text|
  {
    if text != "" {
      SameBreaks(text[1..]);
    }
  }

  // A body that opens with the heading of a decision loses it, and only it.
  lemma HeadingIsCleaned(space: char -> bool, digits: string, title: string, body: string)
    requires LawfulSpace(space) && space(' ')
    requires digits != "" && (forall c :: c in digits ==> IsDigit(c)) && '\n' !in title && '\r' !in title && '\r' !in body
    ensures Clean(space, "# DEC-" + digits + title + "\n\n" + body) == Strip(space, body)
  {
    hide Strip, Unix, DropTitle, FirstAt, Lstrip, MatchesAt;
    var id := "DEC-" + digits + title + "\n\n" + body;
    var text := "# DEC-" + digits + title + "\n\n" + body;
    var at := 4 + |digits| + |title|;
    assert text == "# " + id && text[1..] == " " + id && id[at..] == "\n\n" + body;
    NoReturnInDigits(digits);
    SameBreaks(text);
    HeadingTrims(space, text, id, digits);
    FirstLineEnd(id, at, digits, title, body);
    DropTitleIs(space, text, id, at);
    StripDropsLines(space, body);
  }

  lemma HeadingTrims(space: char -> bool, text: string, id: string, digits: string)
    requires LawfulSpace(space) && space(' ') && text == "# " + id && Prefix("DEC-" + digits, id)
    requires digits != "" && forall c :: c in digits ==> IsDigit(c)
    ensures Lstrip(space, text) == text && MatchesAt(text, "#", 0) && Lstrip(space, text[1..]) == id && id != text[1..]
    ensures MatchesAt(id, "DEC-", 0) && |id| > 4 && IsDigit(id[4])
  {
    assert text[..1] == "#" && text[1..] == " " + id;
    LstripDrops(space, " ", id);
    hide LawfulSpace;
    assert id[..4] == "DEC-";
    assert id[4] == digits[0] && digits[0] in digits;
  }

  lemma NoReturnInDigits(digits: string)
    requires forall c :: c in digits ==> IsDigit(c)
    ensures '\r' !in digits && '\n' !in digits
  {
  }

  lemma FirstLineEnd(id: string, at: nat, digits: string, title: string, body: string)
    requires id == "DEC-" + digits + title + "\n\n" + body && at == 4 + |digits| + |title| && digits != ""
    requires '\n' !in digits && '\n' !in title
    ensures FirstAt(id, "\n", 5) == Some(at)
  {
    forall i | 5 <= i < at
      ensures !MatchesAt(id, "\n", i)
    {
      NewlineAt(id, i);
      assert id[i] == (digits + title)[i - 4] && (digits + title)[i - 4] in digits + title;
    }
    NewlineAt(id, at);
  }

  lemma DropTitleIs(space: char -> bool, text: string, id: string, at: nat)
    requires Lstrip(space, text) == text && MatchesAt(text, "#", 0) && Lstrip(space, text[1..]) == id && id != text[1..]
    requires MatchesAt(id, "DEC-", 0) && |id| > 4 && IsDigit(id[4]) && FirstAt(id, "\n", 5) == Some(at)
    ensures DropTitle(space, text) == Lstrip(LineFeed, id[at..])
  {
  }

  lemma StripDropsLines(space: char -> bool, body: string)
    requires space('\n')
    ensures Strip(space, Lstrip(LineFeed, "\n\n" + body)) == Strip(space, body)
  {
    LstripDrops(LineFeed, "\n\n", body);
    var k := LstripSplits(LineFeed, body);
    assert body == body[..k] + body[k..];
    LstripDrops(space, body[..k], body[k..]);
  }

  // A body without a heading is only trimmed, its line ends translated.
  lemma OtherBodiesAreTrimmed(space: char -> bool, body: string)
    requires !MatchesAt(Lstrip(space, Unix(body)), "#", 0)
    ensures Clean(space, body) == Strip(space, Unix(body))
  {
  }

  // Each bar of a title is escaped, and nothing else is changed.
  lemma {:induction false} EscapedAppend(a: string, b: string)
    ensures Escaped(a + b) == Escaped(a) + Escaped(b)
    decreases |a|
  {
    if a == "" {
      assert a + b == b;
    } else {
      assert (a + b)[0] == a[0] && (a + b)[1..] == a[1..] + b;
      EscapedAppend(a[1..], b);
    }
  }

  lemma {:induction false} EscapedPlain(a: string)
    requires '|' !in a
    ensures Escaped(a) == a && Escaped("|") == "\\|"
    decreases |a|
  {
    assert "|"[1..] == "" && Escaped("") == "";
    if a != "" {
      assert a[0] in a;
      EscapedPlain(a[1..]);
    }
  }

  // Where a row stands in the table.
  lemma {:induction false} RowStands(r: Renderer, entries: seq<Entry>, i: nat)
    requires i < |entries|
    ensures MatchesAt(Rows(r, entries), Row(r, entries[i]), |Rows(r, entries[..i])|)
    decreases |entries|
  {
    hide Row;
    var n := |entries| - 1;
    if i < n {
      RowStands(r, entries[..n], i);
      assert entries[..n][..i] == entries[..i];
      var at, row := |Rows(r, entries[..i])|, Row(r, entries[i]);
      assert Rows(r, entries)[at..at + |row|] == Rows(r, entries[..n])[at..at + |row|];
    }
  }

  // The index opens with the header.
  lemma IndexHasHeader(r: Renderer, entries: seq<Entry>, preamble: Option<string>)
    requires Plain(r) && (forall e :: e in entries ==> DecId(e.id) && '\r' !in e.status)
    requires preamble.Some? ==> '\r' !in preamble.value
    ensures Prefix(r.header, IndexText(r, entries, preamble))
  {
    IndexIsUntrimmed(r, entries, preamble);
    IndexOpens(r, |entries|, preamble);
    hide IndexTop, IndexText, Plain, Rows;
  }

  // And lists every decision in order.
  lemma IndexLists(r: Renderer, entries: seq<Entry>, preamble: Option<string>, i: nat)
    requires Plain(r) && (forall e :: e in entries ==> DecId(e.id) && '\r' !in e.status) && i < |entries|
    requires preamble.Some? ==> '\r' !in preamble.value
    ensures MatchesAt(
              IndexText(r, entries, preamble), Row(r, entries[i]),
              |IndexTop(r, |entries|, preamble)| + |Rows(r, entries[..i])|)
  {
    hide Row, IndexTop, IndexText, Plain, DecId, MatchesAt;
    RowStands(r, entries, i);
    IndexIsUntrimmed(r, entries, preamble);
    Within(IndexTop(r, |entries|, preamble), Rows(r, entries), "\n", Row(r, entries[i]), |Rows(r, entries[..i])|);
  }

  // The preamble of the index is the trimmed content of `_preamble.md`, as read.
  lemma PreambleIsShown(r: Renderer, s: Snapshot, docs: Docs)
    requires Plain(r) && forall e :: e in s.decisions ==> DecId(e.id) && '\r' !in e.status
    requires docs.decisions.Some? && "_preamble.md" in docs.decisions.value
    ensures Prefix(r.header + "\n\n" + Strip(r.space, Universal(docs.decisions.value["_preamble.md"])) + "\n\n", Index(r, s, docs))
  {
    var preamble := Some(Universal(docs.decisions.value["_preamble.md"]));
    assert Preamble(docs) == preamble;
    IndexIsUntrimmed(r, s.decisions, preamble);
    TopShows(r, |s.decisions|, preamble);
    hide IndexTop, IndexText, Plain, Rows, Strip, DecId;
  }

  lemma TopShows(r: Renderer, n: nat, preamble: Option<string>)
    requires preamble.Some?
    ensures Prefix(r.header + "\n\n" + Strip(r.space, preamble.value) + "\n\n", IndexTop(r, n, preamble))
  {
    hide Strip;
  }

  lemma Within(top: string, text: string, end: string, pattern: string, at: nat)
    requires MatchesAt(text, pattern, at)
    ensures MatchesAt(top + text + end, pattern, |top| + at)
  {
    assert (top + text + end)[|top| + at..|top| + at + |pattern|] == text[at..at + |pattern|];
  }

  // A row: id, escaped title, status and the link to the file.
  lemma RowSays(r: Renderer, e: Entry)
    ensures var link := "decisions/" + FileName(r, e);
            Row(r, e) == "\n| " + e.id + " | " + Escaped(e.title) + " | " + e.status + " | [" + link + "](" + link + ") |"
  {
  }

  lemma IndexOpens(r: Renderer, n: nat, preamble: Option<string>)
    ensures Prefix(r.header, IndexTop(r, n, preamble))
  {
  }
}
