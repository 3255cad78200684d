// The synchronisation of ADRs into vault notes (scripts/vault_sync.py): what one
// ADR plans for its note.
module VaultSync {
  import opened Basics
  import opened JsonValues
  import opened AdrMarkdown

  // `path` is the file's full path, `text` its content as read.
  datatype Adr = Adr(name: string, path: string, text: string, fields: Record, body: string)

  datatype Note = Note(fm: Record, body: string)

  // What one run reads from outside: the content hash, the clock and the name
  // it would give to a new note.
  datatype Env = Env(hash: string -> string, now: string, today: string, slug: string -> string, newName: string -> string)

  datatype Conflict = Conflict(decId: string, field: string, adrValue: Json, vaultValue: Json)

  datatype Kind = Create | Update | Unchanged

  datatype Action = Action(decId: string, kind: Kind, name: string, written: Option<Note>, conflicts: seq<Conflict>)

  // The note an ADR belongs to.
  datatype Target = Target(name: string, note: Note)

  const SCALARS: seq<string> := ["status", "supersedes", "superseded_by"]

  const MANAGED: set<string> := {"status", "supersedes", "superseded_by", "sources", "graphify", "adr_sync"}

  const GRAPH_ROOT := "E:\\Graphify\\Studio-OS\\graphify-out\\graph.json"

  // --- reading front matter -------------------------------------------------------

  function Items(v: Json): seq<Json> {
    if v.Arr? then v.items else []
  }

  function Fields(v: Json): Record {
    if v.Obj? then v.fields else map[]
  }

  ghost predicate ListOfRecords(v: Json) {
    Falsy(v) || (v.Arr? && forall e :: e in v.items ==> e.Obj?)
  }

  // The shapes the code reads without raising.
  ghost predicate WellShaped(fm: Record) {
    && (Falsy(Get(fm, "sources")) || Get(fm, "sources").Arr?)
    && (Falsy(Get(fm, "graphify")) || Get(fm, "graphify").Obj?)
    && ListOfRecords(Get(Fields(Get(fm, "graphify")), "entities"))
    && (Falsy(Get(fm, "adr_sync")) || Get(fm, "adr_sync").Obj?)
  }

  ghost predicate WellFormed(adr: Adr) {
    && Get(adr.fields, "id").Str? && Get(adr.fields, "title").Str?
    && ListOfRecords(Get(adr.fields, "graphify_entities"))
  }

  function AdrId(adr: Adr): string {
    if Get(adr.fields, "id").Str? then adr.fields["id"].s else ""
  }

  function Title(adr: Adr): string {
    if Get(adr.fields, "title").Str? then adr.fields["title"].s else ""
  }

  function RelPath(adr: Adr): string {
    "docs/decisions/" + adr.name
  }

  function SyncHash(env: Env, adr: Adr): string {
    env.hash(Title(adr) + "\n" + adr.text)
  }

  function Entities(fm: Record): seq<Json> {
    Items(Get(Fields(Get(fm, "graphify")), "entities"))
  }

  function AdrEntities(adr: Adr): seq<Json> {
    Items(Get(adr.fields, "graphify_entities"))
  }

  // --- the four steps of an update ---------------------------------------------------

  predicate Empty(v: Json) {
    v == Null || v == Str("")
  }

  // The ADR knows the field and the note does not have it.
  predicate Fills(adr: Adr, fm: Record, f: string) {
    Get(adr.fields, f) != Null && Empty(Get(fm, f))
  }

  function FillScalars(adr: Adr, fm: Record, fs: seq<string>): Record
    decreases |fs|
  {
    if fs == [] then fm
    else
      var f, rest := fs[|fs| - 1], FillScalars(adr, fm, fs[..|fs| - 1]);
      if Fills(adr, rest, f) then rest[f := Get(adr.fields, f)] else rest
  }

  predicate Disagree(adr: Adr, fm: Record, f: string) {
    Get(adr.fields, f) != Null && !Empty(Get(fm, f)) && Get(fm, f) != Get(adr.fields, f)
  }

  function Conflicts(adr: Adr, fm: Record, fs: seq<string>): seq<Conflict>
    decreases |fs|
  {
    if fs == [] then []
    else
      var f, rest := fs[|fs| - 1], Conflicts(adr, fm, fs[..|fs| - 1]);
      if Disagree(adr, fm, f) then rest + [Conflict(AdrId(adr), f, Get(adr.fields, f), Get(fm, f))] else rest
  }

  predicate Listed(adr: Adr, fm: Record) {
    Str(RelPath(adr)) in Items(Get(fm, "sources")) || Str(adr.path) in Items(Get(fm, "sources"))
  }

  function AddSource(adr: Adr, fm: Record): Record {
    if Listed(adr, fm) then fm else fm["sources" := Arr(Items(Get(fm, "sources")) + [Str(RelPath(adr))])]
  }

  datatype Key = Key(nodeId: Json, path: Json, symbol: Json)

  function KeyOf(e: Json): Key {
    Key(Get(Fields(e), "node_id"), Get(Fields(e), "path"), Get(Fields(e), "symbol"))
  }

  predicate HasKey(es: seq<Json>, k: Key) {
    exists e :: e in es && KeyOf(e) == k
  }

  function Merged(vault: seq<Json>, adr: seq<Json>): seq<Json>
    decreases |adr|
  {
    if adr == [] then vault
    else
      var e, rest := adr[|adr| - 1], Merged(vault, adr[..|adr| - 1]);
      if HasKey(rest, KeyOf(e)) then rest else rest + [e]
  }

  method MergeEntities(vault: seq<Json>, adr: seq<Json>) returns (merged: seq<Json>, changed: bool)
    ensures merged == Merged(vault, adr) && (changed <==> merged != vault)
  {
    var keys: set<Key> := set e | e in vault :: KeyOf(e);
    merged, changed := vault, false;
    for i := 0 to |adr|
      invariant merged == Merged(vault, adr[..i])
      invariant forall k :: k in keys <==> HasKey(merged, k)
      invariant |merged| >= |vault| && merged[..|vault|] == vault && (changed <==> |merged| > |vault|)
    {
      assert adr[..i + 1][..i] == adr[..i];
      var e := adr[i];
      if KeyOf(e) !in keys {
        assert forall x :: x in merged + [e] <==> x in merged || x == e;
        merged, keys, changed := merged + [e], keys + {KeyOf(e)}, true;
      }
    }
    assert adr[..|adr|] == adr;
  }

  // The union is additive: what the vault has comes first and unchanged, every
  // entity of the ADR is there, and nothing changes when it already was.
  lemma {:induction false} MergedIsAdditive(vault: seq<Json>, adr: seq<Json>)
    ensures Prefix(vault, Merged(vault, adr))
    ensures forall e :: e in adr ==> HasKey(Merged(vault, adr), KeyOf(e))
    ensures Merged(vault, adr) == vault <==> forall e :: e in adr ==> HasKey(vault, KeyOf(e))
    decreases |adr|
  {
    if adr != [] {
      hide KeyOf;
      var e, front := adr[|adr| - 1], adr[..|adr| - 1];
      var rest := Merged(vault, front);
      MergedIsAdditive(vault, front);
      assert forall x :: x in adr <==> x in front || x == e;
      assert forall x :: x in rest + [e] <==> x in rest || x == e;
    }
  }

  // Only entities of the ADR with a key not seen before are appended.
  lemma {:induction false} MergedAddsOnlyNew(vault: seq<Json>, adr: seq<Json>, i: nat)
    requires |vault| <= i < |Merged(vault, adr)|
    ensures var merged := Merged(vault, adr); merged[i] in adr && !HasKey(merged[..i], KeyOf(merged[i]))
    decreases |adr|
  {
    if adr != [] {
      hide KeyOf, HasKey;
      var front := adr[..|adr| - 1];
      var rest := Merged(vault, front);
      if i < |rest| {
        MergedAddsOnlyNew(vault, front, i);
        assert Merged(vault, adr)[..i] == rest[..i];
      } else {
        assert Merged(vault, adr)[..i] == rest;
      }
    }
  }

  function AddEntities(adr: Adr, fm: Record): Record {
    var merged := Merged(Entities(fm), AdrEntities(adr));
    if merged == Entities(fm) then fm
    else fm["graphify" := Obj(Fields(Get(fm, "graphify"))["entities" := Arr(merged)])]
  }

  predicate Stamped(env: Env, adr: Adr, fm: Record) {
    Get(Fields(Get(fm, "adr_sync")), "sync_hash") == Str(SyncHash(env, adr))
  }

  function SyncBlock(env: Env, adr: Adr): Json {
    Obj(map["path" := Str(RelPath(adr)), "sync_hash" := Str(SyncHash(env, adr)), "synced_at" := Str(env.now)])
  }

  function Stamp(env: Env, adr: Adr, fm: Record): Record {
    if Stamped(env, adr, fm) then fm else fm["adr_sync" := SyncBlock(env, adr)]
  }

  // --- one ADR ---------------------------------------------------------------------

  function Synced(env: Env, adr: Adr, fm: Record): Record {
    Stamp(env, adr, AddEntities(adr, AddSource(adr, FillScalars(adr, fm, SCALARS))))
  }

  predicate UpToDate(env: Env, adr: Adr, fm: Record) {
    && (forall f :: f in SCALARS ==> !Fills(adr, fm, f))
    && Listed(adr, fm)
    && (forall e :: e in AdrEntities(adr) ==> HasKey(Entities(fm), KeyOf(e)))
    && Stamped(env, adr, fm)
  }

  function KnownScalars(adr: Adr): Record {
    map f | f in SCALARS && Get(adr.fields, f) != Null :: Get(adr.fields, f)
  }

  function NewFields(env: Env, adr: Adr): Record {
    var source := if "source" in adr.fields then adr.fields["source"] else Str("docs/DECISIONS.md");
    map[
      "aliases" := Arr([Str(AdrId(adr))]),
      "dedupe_key" := Str("decision:studio-os:" + env.slug(Title(adr))),
      "project" := Str("studio-os"),
      "type" := Str("decision"),
      "schema_version" := Whole(1),
      "title" := Str(AdrId(adr) + " \U{2014} " + Title(adr)),
      "created" := Str(env.today),
      "updated" := Str(env.today),
      "sources" := Arr([Str(RelPath(adr)), source]),
      "tags" := Arr([Str("studio-os")]),
      "graph_root" := Str(GRAPH_ROOT)
    ]
  }

  function NewFrontMatter(env: Env, adr: Adr): Record {
    NewFields(env, adr)
    + KnownScalars(adr)
    + (if AdrEntities(adr) == [] then map[] else map["graphify" := Obj(map["entities" := Arr(AdrEntities(adr))])])
    + map["adr_sync" := SyncBlock(env, adr)]
  }

  function ProofSection(adr: Adr): string {
    "Synchronise automatiquement depuis `" + RelPath(adr) + "`. Aucune revue "
    + "humaine effectuee sur cette note -- Contexte/Consequences a completer.\n"
  }

  function NewBody(adr: Adr): string {
    "# " + AdrId(adr) + " \U{2014} " + Title(adr) + "\n\n## Decision\n\n" + adr.body + "\n\n## Preuves\n\n" + ProofSection(adr)
  }

  function Planned(env: Env, adr: Adr, target: Option<Target>): Action {
    if target.None? then
      Action(AdrId(adr), Create, env.newName(Title(adr)), Some(Note(NewFrontMatter(env, adr), NewBody(adr))), [])
    else
      var fm := target.value.note.fm;
      var conflicts := Conflicts(adr, fm, SCALARS);
      if UpToDate(env, adr, fm) then Action(AdrId(adr), Unchanged, target.value.name, None, conflicts)
      else
        Action(AdrId(adr), Update, target.value.name, Some(Note(Synced(env, adr, fm), target.value.note.body)), conflicts)
  }

  // --- what the steps read and write -------------------------------------------------

  lemma {:induction false} FillScalarsIs(adr: Adr, fm: Record, fs: seq<string>, k: string)
    requires Distinct(fs)
    ensures k in FillScalars(adr, fm, fs) <==> k in fm || (k in fs && Fills(adr, fm, k))
    ensures Get(FillScalars(adr, fm, fs), k) == if k in fs && Fills(adr, fm, k) then Get(adr.fields, k) else Get(fm, k)
    decreases |fs|
  {
    if fs != [] {
      var f, front := fs[|fs| - 1], fs[..|fs| - 1];
      assert f !in front && forall x :: x in fs <==> x in front || x == f;
      FillScalarsIs(adr, fm, front, k);
      FillScalarsIs(adr, fm, front, f);
    }
  }

  lemma ScalarsAreDistinct()
    ensures Distinct(SCALARS) && forall k :: k in ["aliases", "sources", "graphify", "adr_sync"] ==> k !in SCALARS
  {
  }

  // Each step leaves alone what the later ones look at.
  lemma StepsAreIndependent(env: Env, adr: Adr, fm: Record)
    ensures var filled := FillScalars(adr, fm, SCALARS);
            var sourced := AddSource(adr, filled);
            var merged := AddEntities(adr, sourced);
            && (Listed(adr, filled) <==> Listed(adr, fm))
            && Get(sourced, "graphify") == Get(fm, "graphify")
            && (Stamped(env, adr, merged) <==> Stamped(env, adr, fm))
  {
    ScalarsAreDistinct();
    hide FillScalars, Fills, Merged;
    FillScalarsIs(adr, fm, SCALARS, "sources");
    FillScalarsIs(adr, fm, SCALARS, "graphify");
    FillScalarsIs(adr, fm, SCALARS, "adr_sync");
  }

  method PlanScalars(adr: Adr, was: Record) returns (fm: Record, conflicts: seq<Conflict>, changed: bool)
    ensures fm == FillScalars(adr, was, SCALARS) && conflicts == Conflicts(adr, was, SCALARS)
    ensures changed <==> exists f :: f in SCALARS && Fills(adr, was, f)
  {
    ScalarsAreDistinct();
    fm, conflicts, changed := was, [], false;
    for i := 0 to |SCALARS|
      invariant fm == FillScalars(adr, was, SCALARS[..i]) && conflicts == Conflicts(adr, was, SCALARS[..i])
      invariant changed <==> exists f :: f in SCALARS[..i] && Fills(adr, was, f)
    {
      var f := SCALARS[i];
      assert SCALARS[..i + 1][..i] == SCALARS[..i] && f !in SCALARS[..i];
      FillScalarsIs(adr, was, SCALARS[..i], f);
      if Get(adr.fields, f) != Null {
        if Empty(Get(fm, f)) {
          fm, changed := fm[f := Get(adr.fields, f)], true;
        } else if Get(fm, f) != Get(adr.fields, f) {
          conflicts := conflicts + [Conflict(AdrId(adr), f, Get(adr.fields, f), Get(fm, f))];
        }
      }
    }
    assert SCALARS[..|SCALARS|] == SCALARS;
  }

  lemma PlannedShape(env: Env, adr: Adr, target: Option<Target>)
    ensures var action := Planned(env, adr, target);
            && (action.kind == Create <==> target.None?)
            && (action.written.None? <==> action.kind == Unchanged)
            && (target.Some? ==> action.name == target.value.name)
  {
  }

  method PlanOne(env: Env, adr: Adr, target: Option<Target>) returns (action: Action)
    requires WellFormed(adr) && (target.Some? ==> WellShaped(target.value.note.fm))
    ensures action == Planned(env, adr, target)
  {
    if target.None? {
      return Planned(env, adr, None);
    }
    var was := target.value.note.fm;
    StepsAreIndependent(env, adr, was);
    MergedIsAdditive(Entities(was), AdrEntities(adr));
    hide FillScalars, Fills, Conflicts, Listed, Merged, HasKey, KeyOf, SyncBlock, Stamped, RelPath, Prefix, NewFrontMatter, NewBody;
    var fm, conflicts, changed := PlanScalars(adr, was);
    if !Listed(adr, fm) {
      fm, changed := fm["sources" := Arr(Items(Get(fm, "sources")) + [Str(RelPath(adr))])], true;
    }
    if AdrEntities(adr) != [] {
      var merged, more := MergeEntities(Entities(fm), AdrEntities(adr));
      if more {
        fm, changed := fm["graphify" := Obj(Fields(Get(fm, "graphify"))["entities" := Arr(merged)])], true;
      }
    }
    if !Stamped(env, adr, fm) {
      fm, changed := fm["adr_sync" := SyncBlock(env, adr)], true;
    }
    if !changed {
      return Action(AdrId(adr), Unchanged, target.value.name, None, conflicts);
    }
    return Action(AdrId(adr), Update, target.value.name, Some(Note(fm, target.value.note.body)), conflicts);
  }

  // --- what an update keeps ------------------------------------------------------------

  lemma SyncedIs(env: Env, adr: Adr, fm: Record, k: string)
    ensures var s := Synced(env, adr, fm);
            && (k !in MANAGED ==> (k in s <==> k in fm) && Get(s, k) == Get(fm, k))
            && (k in SCALARS ==> Get(s, k) == if Fills(adr, fm, k) then Get(adr.fields, k) else Get(fm, k))
            && Get(s, "sources") == Get(AddSource(adr, fm), "sources")
            && Get(s, "graphify") == Get(AddEntities(adr, fm), "graphify")
            && Get(s, "adr_sync") == Get(Stamp(env, adr, fm), "adr_sync")
  {
    StepsAreIndependent(env, adr, fm);
    ScalarsAreDistinct();
    FillScalarsIs(adr, fm, SCALARS, k);
    FillScalarsIs(adr, fm, SCALARS, "sources");
    FillScalarsIs(adr, fm, SCALARS, "graphify");
    FillScalarsIs(adr, fm, SCALARS, "adr_sync");
    hide FillScalars, Fills, Merged, Listed, Stamped, SyncBlock;
  }

  // Every unmanaged field, and every source and entity the note had, is kept; a
  // scalar the note has is never overwritten.
  lemma UpdateIsAdditive(env: Env, adr: Adr, fm: Record)
    ensures var s := Synced(env, adr, fm);
            && (forall k :: k !in MANAGED ==> (k in s <==> k in fm) && Get(s, k) == Get(fm, k))
            && (forall f :: f in SCALARS && !Empty(Get(fm, f)) ==> Get(s, f) == Get(fm, f))
            && Prefix(Items(Get(fm, "sources")), Items(Get(s, "sources")))
            && Prefix(Entities(fm), Entities(s))
            && (forall k :: k != "entities" ==> Get(Fields(Get(s, "graphify")), k) == Get(Fields(Get(fm, "graphify")), k))
  {
    hide Synced, MANAGED, Merged, Listed, HasKey;
    forall k {
      SyncedIs(env, adr, fm, k);
    }
    MergedIsAdditive(Entities(fm), AdrEntities(adr));
  }

  // An update leaves front matter that the next run can read.
  lemma SyncedIsWellShaped(env: Env, adr: Adr, fm: Record)
    requires WellFormed(adr) && WellShaped(fm)
    ensures WellShaped(Synced(env, adr, fm))
  {
    SyncedIs(env, adr, fm, "sources");
    MergedHoldsRecords(Entities(fm), AdrEntities(adr));
    hide Synced, Merged, Listed, Stamped, RelPath;
  }

  lemma {:induction false} MergedHoldsRecords(vault: seq<Json>, adr: seq<Json>)
    requires forall e :: e in vault || e in adr ==> e.Obj?
    ensures forall e :: e in Merged(vault, adr) ==> e.Obj?
    decreases |adr|
  {
    if adr != [] {
      hide KeyOf, HasKey;
      MergedHoldsRecords(vault, adr[..|adr| - 1]);
      assert adr[|adr| - 1] in adr;
    }
  }

  // The field is known empty to the ADR and missing from the note: filling it
  // leaves it empty.
  predicate FillsWithNothing(adr: Adr, fm: Record, f: string) {
    Get(adr.fields, f) == Str("") && Empty(Get(fm, f))
  }

  lemma SyncedIsUpToDate(env: Env, env': Env, adr: Adr, fm: Record)
    requires env'.hash == env.hash
    ensures UpToDate(env', adr, Synced(env, adr, fm)) <==> forall f :: f in SCALARS ==> !FillsWithNothing(adr, fm, f)
  {
    hide Synced, Merged, KeyOf, HasKey;
    var s := Synced(env, adr, fm);
    forall f | f in SCALARS
      ensures Fills(adr, s, f) <==> FillsWithNothing(adr, fm, f)
    {
      SyncedIs(env, adr, fm, f);
    }
    SyncedIs(env, adr, fm, "sources");
    MergedIsAdditive(Entities(fm), AdrEntities(adr));
    MergedIsAdditive(Entities(s), AdrEntities(adr));
  }

  // A conflict is reported for exactly the scalars that both sides know and
  // disagree about, each with its two values.
  lemma {:induction false} ConflictsAreDisagreements(adr: Adr, fm: Record, fs: seq<string>, c: Conflict)
    ensures c in Conflicts(adr, fm, fs) <==>
              && c.field in fs && c.decId == AdrId(adr)
              && c.adrValue == Get(adr.fields, c.field) != Null
              && c.vaultValue == Get(fm, c.field) && !Empty(c.vaultValue) && c.vaultValue != c.adrValue
    decreases |fs|
  {
    if fs != [] {
      ConflictsAreDisagreements(adr, fm, fs[..|fs| - 1], c);
      assert c.field in fs <==> c.field in fs[..|fs| - 1] || c.field == fs[|fs| - 1];
    }
  }

  lemma {:induction false} ConflictsStay(adr: Adr, fm: Record, fm': Record, fs: seq<string>)
    requires forall f :: f in fs ==> Get(fm', f) == if Fills(adr, fm, f) then Get(adr.fields, f) else Get(fm, f)
    ensures Conflicts(adr, fm', fs) == Conflicts(adr, fm, fs)
    decreases |fs|
  {
    if fs != [] {
      ConflictsStay(adr, fm, fm', fs[..|fs| - 1]);
      assert fs[|fs| - 1] in fs;
    }
  }

  lemma NewFieldsAre(env: Env, adr: Adr)
    ensures var fm := NewFields(env, adr);
            && Get(fm, "aliases") == Arr([Str(AdrId(adr))])
            && Get(fm, "sources").Arr? && Str(RelPath(adr)) in Get(fm, "sources").items
            && "graphify" !in fm && "adr_sync" !in fm && (forall f :: f in SCALARS ==> f !in fm)
  {
    assert Get(NewFields(env, adr), "sources").items[0] == Str(RelPath(adr));
  }

  lemma NewScalarsAre(env: Env, adr: Adr, f: string)
    requires f in SCALARS
    ensures Get(NewFrontMatter(env, adr), f) == Get(adr.fields, f)
  {
    NewFieldsAre(env, adr);
    ScalarsAreDistinct();
    hide NewFields, SyncBlock, AdrEntities;
  }

  lemma NewFills(env: Env, adr: Adr, f: string)
    requires f in SCALARS
    ensures Fills(adr, NewFrontMatter(env, adr), f) <==> Get(adr.fields, f) == Str("")
  {
    hide NewFrontMatter;
    NewScalarsAre(env, adr, f);
  }

  lemma NewSourcesAre(env: Env, adr: Adr)
    ensures Get(NewFrontMatter(env, adr), "aliases") == Arr([Str(AdrId(adr))])
    ensures Listed(adr, NewFrontMatter(env, adr))
  {
    NewFieldsAre(env, adr);
    ScalarsAreDistinct();
    hide NewFields, SyncBlock, RelPath, AdrId, AdrEntities;
  }

  lemma NewBlocksAre(env: Env, env': Env, adr: Adr)
    requires env'.hash == env.hash
    ensures Entities(NewFrontMatter(env, adr)) == AdrEntities(adr)
    ensures Stamped(env', adr, NewFrontMatter(env, adr))
  {
    NewFieldsAre(env, adr);
    ScalarsAreDistinct();
    assert SyncHash(env', adr) == SyncHash(env, adr);
    hide NewFields, RelPath, AdrId, AdrEntities, SyncHash;
  }

  // The front matter that a created note starts from.
  lemma NewIsUpToDate(env: Env, env': Env, adr: Adr)
    requires env'.hash == env.hash
    ensures var fm := NewFrontMatter(env, adr);
            && (UpToDate(env', adr, fm) <==> forall f :: f in SCALARS ==> Get(adr.fields, f) != Str(""))
            && Conflicts(adr, fm, SCALARS) == []
  {
    hide NewFrontMatter, Listed, KeyOf, Stamped, Fills, AdrEntities, Entities, Conflicts, Get;
    var fm := NewFrontMatter(env, adr);
    forall f | f in SCALARS
      ensures Get(fm, f) == Get(adr.fields, f) && (Fills(adr, fm, f) <==> Get(adr.fields, f) == Str(""))
    {
      NewScalarsAre(env, adr, f);
      NewFills(env, adr, f);
    }
    NewSourcesAre(env, adr);
    NewBlocksAre(env, env', adr);
    NoConflicts(adr, NewFrontMatter(env, adr), SCALARS);
  }

  lemma {:induction false} NoConflicts(adr: Adr, fm: Record, fs: seq<string>)
    requires forall f :: f in fs ==> Get(fm, f) == Get(adr.fields, f)
    ensures Conflicts(adr, fm, fs) == []
    decreases |fs|
  {
    if fs != [] {
      NoConflicts(adr, fm, fs[..|fs| - 1]);
      assert fs[|fs| - 1] in fs;
    }
  }

  // The note as an action leaves it.
  function After(action: Action, target: Option<Target>): Option<Note> {
    if action.written.Some? then action.written
    else if target.Some? then Some(target.value.note)
    else None
  }

  ghost predicate NothingToFillWith(adr: Adr, target: Option<Target>) {
    forall f :: f in SCALARS ==> !FillsWithNothing(adr, if target.Some? then target.value.note.fm else map[], f)
  }

  // Planning again from the note an action leaves, whatever has become of its
  // body, changes nothing exactly when no field is filled with the empty string;
  // the conflicts are the same ones.
  lemma ReplanExactly(env: Env, env': Env, adr: Adr, target: Option<Target>, name: string, body: string)
    requires env'.hash == env.hash
    ensures var action := Planned(env, adr, target);
            && After(action, target).Some?
            && var again := Planned(env', adr, Some(Target(name, After(action, target).value.(body := body))));
               && (again.kind == Unchanged <==> NothingToFillWith(adr, target))
               && again.conflicts == action.conflicts
  {
    hide NewFrontMatter, NewBody, Synced, UpToDate;
    if target.None? {
      NewIsUpToDate(env, env', adr);
    } else {
      var fm := target.value.note.fm;
      SyncedIsUpToDate(env, env', adr, fm);
      if UpToDate(env, adr, fm) {
        UpToDateFillsNothing(env, env', adr, fm);
      }
      forall f | f in SCALARS {
        SyncedIs(env, adr, fm, f);
      }
      ConflictsStay(adr, fm, Synced(env, adr, fm), SCALARS);
    }
  }

  lemma UpToDateFillsNothing(env: Env, env': Env, adr: Adr, fm: Record)
    requires env'.hash == env.hash && UpToDate(env, adr, fm)
    ensures UpToDate(env', adr, fm) && forall f :: f in SCALARS ==> !FillsWithNothing(adr, fm, f)
  {
    assert forall f :: FillsWithNothing(adr, fm, f) ==> Fills(adr, fm, f);
    hide HasKey, KeyOf, Listed, SCALARS;
  }

  // --- what an update brings -----------------------------------------------------------

  // The ADR's values where the note had none, its file among the sources, and its
  // stamp over title and text.
  lemma UpdateBrings(env: Env, adr: Adr, fm: Record)
    ensures var s := Synced(env, adr, fm);
            && (forall f ::
                  (&& f in ["status", "supersedes", "superseded_by"]
                   && Get(adr.fields, f) != Null && (Get(fm, f) == Null || Get(fm, f) == Str("")))
                  ==> Get(s, f) == Get(adr.fields, f))
            && (var sources, own := Items(Get(fm, "sources")), Str("docs/decisions/" + adr.name);
                Items(Get(s, "sources")) == if own in sources || Str(adr.path) in sources then sources else sources + [own])
            && Get(Fields(Get(s, "adr_sync")), "sync_hash") == Str(env.hash(Title(adr) + "\n" + adr.text))
  {
    SyncedIsStamped(env, adr, fm);
    hide Synced, Title, AddEntities, Stamp;
    forall f {
      SyncedIs(env, adr, fm, f);
    }
    assert Listed(adr, Synced(env, adr, fm));
  }

  // The stamp: file, hash and time of the run that wrote it; a valid one is kept.
  lemma StampSays(env: Env, adr: Adr, fm: Record)
    ensures var hash := Str(env.hash(Title(adr) + "\n" + adr.text));
            Get(Synced(env, adr, fm), "adr_sync")
            == if Get(Fields(Get(fm, "adr_sync")), "sync_hash") == hash then Get(fm, "adr_sync")
               else Obj(map["path" := Str("docs/decisions/" + adr.name), "sync_hash" := hash, "synced_at" := Str(env.now)])
  {
    hide Synced, Title;
    SyncedIs(env, adr, fm, "adr_sync");
  }

  // And all its entities.
  lemma UpdateMerges(env: Env, adr: Adr, fm: Record)
    ensures forall e :: e in AdrEntities(adr) ==> exists x :: x in Entities(Synced(env, adr, fm)) && SameEntity(x, e)
  {
    hide Synced, Merged, HasKey, KeyOf, SameEntity, Entities, AdrEntities;
    EntitiesAfter(env, adr, fm);
    MergedIsAdditive(Entities(fm), AdrEntities(adr));
    forall e | e in AdrEntities(adr)
      ensures exists x :: x in Entities(Synced(env, adr, fm)) && SameEntity(x, e)
    {
      HasKeyMeans(Merged(Entities(fm), AdrEntities(adr)), e);
    }
  }

  lemma EntitiesAfter(env: Env, adr: Adr, fm: Record)
    ensures Entities(Synced(env, adr, fm)) == Merged(Entities(fm), AdrEntities(adr))
  {
    hide Synced, Merged;
    SyncedIs(env, adr, fm, "graphify");
  }

  // Two entities are one when node, path and symbol are.
  predicate SameEntity(x: Json, e: Json) {
    && Get(Fields(x), "node_id") == Get(Fields(e), "node_id")
    && Get(Fields(x), "path") == Get(Fields(e), "path")
    && Get(Fields(x), "symbol") == Get(Fields(e), "symbol")
  }

  lemma HasKeyMeans(es: seq<Json>, e: Json)
    ensures HasKey(es, KeyOf(e)) <==> exists x :: x in es && SameEntity(x, e)
  {
    assert forall x :: KeyOf(x) == KeyOf(e) <==> SameEntity(x, e);
    hide KeyOf, SameEntity;
  }

  // A note is left alone exactly when an update would change nothing in it, unless
  // the one thing it does is to fill an empty text with an empty text.
  lemma UnchangedExactly(env: Env, adr: Adr, fm: Record)
    ensures UpToDate(env, adr, fm)
            <==> Synced(env, adr, fm) == fm && forall f :: f in SCALARS ==> !FillsWithNothing(adr, fm, f)
  {
    hide Merged, KeyOf, HasKey;
    var s := Synced(env, adr, fm);
    SyncedIsUpToDate(env, env, adr, fm);
    MergedIsAdditive(Entities(fm), AdrEntities(adr));
    if UpToDate(env, adr, fm) {
      UpToDateFillsNothing(env, env, adr, fm);
      NothingToFill(adr, fm, SCALARS);
    }
  }

  lemma {:induction false} NothingToFill(adr: Adr, fm: Record, fs: seq<string>)
    requires forall f :: f in fs ==> !Fills(adr, fm, f)
    ensures FillScalars(adr, fm, fs) == fm
    decreases |fs|
  {
    if fs != [] {
      NothingToFill(adr, fm, fs[..|fs| - 1]);
      assert fs[|fs| - 1] in fs;
    }
  }

  // --- edits of an ADR ---------------------------------------------------------------------

  ghost predicate Injective(hash: string -> string) {
    forall a, b :: hash(a) == hash(b) ==> a == b
  }

  lemma SyncedIsStamped(env: Env, adr: Adr, fm: Record)
    ensures Stamped(env, adr, Synced(env, adr, fm))
  {
    hide Synced, SyncHash;
    SyncedIs(env, adr, fm, "adr_sync");
  }

  lemma TitleAndText(a: string, t: string, b: string, u: string)
    ensures a == b ==> (a + "\n" + t == b + "\n" + u <==> t == u)
    ensures '\n' !in a && '\n' !in b ==> (a + "\n" + t == b + "\n" + u <==> a == b && t == u)
  {
    var x, y := a + "\n" + t, b + "\n" + u;
    assert x[..|a|] == a && x[|a|] == '\n' && x[|a| + 1..] == t;
    assert y[..|b|] == b && y[|b|] == '\n' && y[|b| + 1..] == u;
    assert forall j :: 0 <= j < |a| ==> x[j] == a[j] && a[j] in a;
    assert forall j :: 0 <= j < |b| ==> y[j] == b[j] && b[j] in b;
  }

  // The stamp an ADR has left is taken for that of another version exactly when
  // title and text are the same; titles are lines.
  lemma StampSeesEdits(env: Env, env': Env, adr: Adr, adr': Adr, fm: Record)
    requires env'.hash == env.hash && Injective(env.hash)
    ensures Title(adr') == Title(adr) ==> (Stamped(env', adr', Synced(env, adr, fm)) <==> adr'.text == adr.text)
    ensures '\n' !in Title(adr) && '\n' !in Title(adr') ==>
              (Stamped(env', adr', Synced(env, adr, fm)) <==> Title(adr') == Title(adr) && adr'.text == adr.text)
  {
    SyncedIsStamped(env, adr, fm);
    TitleAndText(Title(adr), adr.text, Title(adr'), adr'.text);
    hide Synced, Title;
  }

  // An ADR whose text was edited is an update of its note, whatever its fields say;
  // one that was not is unchanged unless a field is filled with the empty text.
  lemma EditIsUpdated(env: Env, env': Env, adr: Adr, text: string, name: string, fm: Record, body: string)
    requires env'.hash == env.hash && Injective(env.hash)
    ensures var edited := adr.(text := text);
            var kind := Planned(env', edited, Some(Target(name, Note(Synced(env, adr, fm), body)))).kind;
            && (text != adr.text ==> kind == Update)
            && (kind == Unchanged <==> text == adr.text && forall f :: f in SCALARS ==> !FillsWithNothing(adr, fm, f))
  {
    var edited := adr.(text := text);
    StampSeesEdits(env, env', adr, edited, fm);
    SyncedIsUpToDate(env, env', adr, fm);
    assert text == adr.text ==> edited == adr;
    hide Synced, NewFrontMatter, NewBody, Conflicts, Stamped, Fills, FillsWithNothing;
  }

  // --- a created note ------------------------------------------------------------------------

  // Identity and title are those of the front matter.
  lemma AdrIsNamed(adr: Adr, id: string, title: string)
    requires Get(adr.fields, "id") == Str(id) && Get(adr.fields, "title") == Str(title)
    ensures AdrId(adr) == id && Title(adr) == title
  {
  }

  // Heading, decision and proof section, with the ADR's body in between.
  lemma NewBodyHolds(adr: Adr, id: string, title: string)
    requires Get(adr.fields, "id") == Str(id) && Get(adr.fields, "title") == Str(title)
    ensures var heading := "# " + id + " \U{2014} " + title + "\n\n## Decision\n\n";
            && Prefix(heading + adr.body + "\n\n## Preuves\n\n", NewBody(adr))
            && NewBody(adr)[|heading|..|heading| + |adr.body|] == adr.body
  {
    AdrIsNamed(adr, id, title);
    hide ProofSection, Title, AdrId;
    var heading := "# " + id + " \U{2014} " + title + "\n\n## Decision\n\n";
    assert NewBody(adr) == (heading + adr.body + "\n\n## Preuves\n\n") + ProofSection(adr);
  }

  // Its front matter is that of its ADR: title, day, own file first among the
  // sources, and everything the ADR knows.
  lemma NewNoteSays(env: Env, adr: Adr, id: string, title: string)
    requires Get(adr.fields, "id") == Str(id) && Get(adr.fields, "title") == Str(title)
    ensures var fm := NewFrontMatter(env, adr);
            && Get(fm, "aliases") == Arr([Str(id)])
            && Get(fm, "title") == Str(id + " \U{2014} " + title)
            && Get(fm, "dedupe_key") == Str("decision:studio-os:" + env.slug(title))
            && Get(fm, "created") == Get(fm, "updated") == Str(env.today)
            && Items(Get(fm, "sources")) == [
                 Str("docs/decisions/" + adr.name),
                 if "source" in adr.fields then adr.fields["source"] else Str("docs/DECISIONS.md")]
  {
    AdrIsNamed(adr, id, title);
    hide NewFrontMatter, NewFields, AdrId, Title, Items, Get, KnownScalars;
    NewFieldsSay(env, adr);
    forall k | k in ["aliases", "title", "dedupe_key", "created", "updated", "sources"] {
      NewFieldStays(env, adr, k);
    }
  }

  lemma NewFieldStays(env: Env, adr: Adr, k: string)
    requires k in ["aliases", "title", "dedupe_key", "created", "updated", "sources"]
    ensures Get(NewFrontMatter(env, adr), k) == Get(NewFields(env, adr), k)
  {
    hide NewFields, SyncBlock, AdrEntities, KnownScalars;
    OnlyScalarsKnown(adr);
  }

  lemma NewNoteHasEntities(env: Env, adr: Adr)
    ensures "graphify" in NewFrontMatter(env, adr) <==> AdrEntities(adr) != []
  {
    hide NewFields, SyncBlock, AdrEntities, KnownScalars;
    NewFieldsSay(env, adr);
    OnlyScalarsKnown(adr);
  }

  lemma NewNoteCarries(env: Env, adr: Adr)
    ensures var fm := NewFrontMatter(env, adr);
            && (forall f :: f in SCALARS ==> Get(fm, f) == Get(adr.fields, f))
            && Entities(fm) == AdrEntities(adr)
            && Get(Fields(Get(fm, "adr_sync")), "sync_hash") == Str(env.hash(Title(adr) + "\n" + adr.text))
  {
    hide NewFrontMatter, Entities, AdrEntities;
    forall f | f in SCALARS {
      NewScalarsAre(env, adr, f);
    }
    NewBlocksAre(env, env, adr);
  }

  lemma NewFieldsSay(env: Env, adr: Adr)
    ensures var fm := NewFields(env, adr);
            && Get(fm, "aliases") == Arr([Str(AdrId(adr))])
            && Get(fm, "title") == Str(AdrId(adr) + " \U{2014} " + Title(adr))
            && Get(fm, "dedupe_key") == Str("decision:studio-os:" + env.slug(Title(adr)))
            && Get(fm, "created") == Get(fm, "updated") == Str(env.today)
            && Items(Get(fm, "sources")) == [
                 Str("docs/decisions/" + adr.name),
                 if "source" in adr.fields then adr.fields["source"] else Str("docs/DECISIONS.md")]
            && "graphify" !in fm
  {
  }

  lemma OnlyScalarsKnown(adr: Adr)
    ensures forall k :: k in ["aliases", "title", "dedupe_key", "created", "updated", "sources", "graphify"] ==> k !in KnownScalars(adr)
  {
  }
}
