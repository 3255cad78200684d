// The snapshot of the server decisions: build_snapshot of scripts/dec_export.py.
module DecSnapshot {
  import opened Basics
  import opened AdrMarkdown

  const EXPORT_FORMAT := "studio-dec-export/1"

  datatype Decision = Decision(
    id: string,
    title: string,
    status: string,
    createdAt: Option<string>,
    taskId: Option<string>,
    body: Option<string>)

  datatype Link = Link(kind: string, target: Option<string>)

  datatype Note = Note(
    key: Option<string>,
    noteType: Option<string>,
    readableId: Option<string>,
    title: Option<string>,
    status: Option<string>,
    createdAt: Option<string>,
    body: Option<string>,
    links: seq<Link>)

  datatype BodySource = FromDecision | FromVault

  datatype Entry = Entry(
    id: string,
    title: string,
    status: string,
    date: Option<string>,
    taskId: Option<string>,
    supersedes: seq<string>,
    supersededBy: seq<string>,
    body: string,
    source: BodySource)

  datatype Snapshot = Snapshot(format: string, projectId: string, decisions: seq<Entry>)

  // --- dictionaries ---------------------------------------------------------------

  // {key(x): x for x in xs if key(x)}: a later element replaces an earlier one.
  function IndexBy<T>(xs: seq<T>, key: T -> Option<string>): (d: Dict<T>)
    ensures d.Valid()
    decreases |xs|
  {
    if xs == [] then Dict([], map[])
    else
      var rest := IndexBy(xs[..|xs| - 1], key);
      var k := key(xs[|xs| - 1]);
      if k.Some? then rest.Put(k.value, xs[|xs| - 1]) else rest
  }

  // Where the last element with the key `k` stands.
  function LastAt<T>(xs: seq<T>, key: T -> Option<string>, k: string): (at: Option<nat>)
    ensures at.Some? ==> at.value < |xs| && key(xs[at.value]) == Some(k)
    ensures at.Some? ==> forall j :: at.value < j < |xs| ==> key(xs[j]) != Some(k)
    ensures at.None? ==> forall x :: x in xs ==> key(x) != Some(k)
    decreases |xs|
  {
    if xs == [] then None
    else if key(xs[|xs| - 1]) == Some(k) then Some(|xs| - 1)
    else LastAt(xs[..|xs| - 1], key, k)
  }

  lemma {:induction false} IndexHoldsTheLast<T>(xs: seq<T>, key: T -> Option<string>, k: string)
    ensures k in IndexBy(xs, key).at <==> LastAt(xs, key, k).Some?
    ensures k in IndexBy(xs, key).at ==> IndexBy(xs, key).at[k] == xs[LastAt(xs, key, k).value]
    decreases |xs|
  {
    if xs != [] {
      IndexHoldsTheLast(xs[..|xs| - 1], key, k);
    }
  }

  // --- reading notes and decisions ---------------------------------------------

  predicate Truthy(s: Option<string>) {
    s.Some? && s.value != ""
  }

  function NoteId(n: Note): Option<string> {
    if n.noteType == Some("decision") && n.readableId.Some? && DecId(n.readableId.value) then n.readableId else None
  }

  function DecisionId(d: Decision): Option<string> {
    Some(d.id)
  }

  // str(value)[:10]
  function Day(value: Option<string>): Option<string> {
    if !Truthy(value) then None else Some(if |value.value| < 10 then value.value else value.value[..10])
  }

  function DecisionStatus(status: string): string {
    if status in {"proposed", "accepted", "superseded"} then status else "proposed"
  }

  function NoteStatus(status: Option<string>): string {
    if status == Some("validated") then "accepted"
    else if status == Some("superseded") then "superseded"
    else "proposed"
  }

  // {n["id"]: rid for rid, n in ...items() if n.get("id")}
  function ReadableByKey(notes: Dict<Note>, n: nat): (m: map<string, string>)
    requires notes.Valid() && n <= |notes.keys|
    ensures forall t :: t in m ==> m[t] in notes.at && notes.at[m[t]].key == Some(t) && t != ""
    ensures forall i :: 0 <= i < n && Truthy(notes.at[notes.keys[i]].key) ==> notes.at[notes.keys[i]].key.value in m
  {
    if n == 0 then map[]
    else
      var rid := notes.keys[n - 1];
      var key := notes.at[rid].key;
      var m := ReadableByKey(notes, n - 1);
      if Truthy(key) then m[key.value := rid] else m
  }

  // What a note's row says about the decision, links apart.
  function FromNote(sameTitle: (string, string) -> bool, id: string, n: Note, d: Option<Decision>): Entry {
    var title := if Truthy(n.title) then n.title.value else id;
    var same := d.Some? && sameTitle(d.value.title, title);
    Entry(id, title, NoteStatus(n.status),
          Day(if same then d.value.createdAt else n.createdAt),
          if same then d.value.taskId else None,
          [], [], n.body.GetOr(""), FromVault)
  }

  function FromRow(d: Decision): Entry {
    Entry(d.id, d.title, DecisionStatus(d.status), Day(d.createdAt), d.taskId, [], [], d.body.GetOr(""), FromDecision)
  }

  predicate LeadsTo(link: Link, byKey: map<string, string>, former: string) {
    link.kind == "supersedes" && link.target.Some? && link.target.value in byKey && byKey[link.target.value] == former
  }

  ghost predicate LinksTo(links: seq<Link>, byKey: map<string, string>, former: string) {
    exists l :: l in links && LeadsTo(l, byKey, former)
  }

  // --- what the snapshot says ----------------------------------------------------

  datatype Source = Source(notes: Dict<Note>, rows: Dict<Decision>, byKey: map<string, string>)

  function Read(decisions: seq<Decision>, notes: seq<Note>): (s: Source)
    ensures s.notes.Valid() && s.rows.Valid()
  {
    var byId := IndexBy(notes, NoteId);
    Source(byId, IndexBy(decisions, DecisionId), ReadableByKey(byId, |byId.keys|))
  }

  ghost predicate Replaces(s: Source, id: string, former: string) {
    id in s.notes.at && former != id && LinksTo(s.notes.at[id].links, s.byKey, former)
  }

  ghost predicate Ordered(rank: string -> int, ids: seq<string>) {
    forall i, j :: 0 <= i < j < |ids| ==> rank(ids[i]) <= rank(ids[j])
  }

  ghost predicate IdList(rank: string -> int, ids: seq<string>) {
    Distinct(ids) && Ordered(rank, ids)
  }

  // A row without note stands alone; a note wins over the row of its number.
  function Alone(s: Source, sameTitle: (string, string) -> bool, id: string): Entry
    requires id in s.notes.at || id in s.rows.at
  {
    if id in s.notes.at then
      FromNote(sameTitle, id, s.notes.at[id], if id in s.rows.at then Some(s.rows.at[id]) else None)
    else
      FromRow(s.rows.at[id])
  }

  ghost predicate Describes(s: Source, sameTitle: (string, string) -> bool, e: Entry) {
    && (e.id in s.notes.at || e.id in s.rows.at)
    && e.(supersedes := [], supersededBy := []) == Alone(s, sameTitle, e.id)
  }

  ghost predicate Links(s: Source, rank: string -> int, e: Entry) {
    && IdList(rank, e.supersedes) && IdList(rank, e.supersededBy)
    && (forall former :: former in e.supersedes <==> Replaces(s, e.id, former))
    && (forall newer :: newer in e.supersededBy <==> Replaces(s, newer, e.id))
  }

  function Ids(entries: seq<Entry>): (ids: seq<string>)
    ensures |ids| == |entries| && forall i :: 0 <= i < |ids| ==> ids[i] == entries[i].id
  {
    seq(|entries|, i requires 0 <= i < |entries| => entries[i].id)
  }

  lemma IdsPush(entries: seq<Entry>, e: Entry)
    ensures Ids(entries + [e]) == Ids(entries) + [e.id]
  {
  }

  ghost predicate IsSnapshot(s: Source, rank: string -> int, sameTitle: (string, string) -> bool, entries: seq<Entry>) {
    && IdList(rank, Ids(entries))
    && (forall id :: id in Ids(entries) <==> id in s.notes.at || id in s.rows.at)
    && (forall e :: e in entries ==> Describes(s, sameTitle, e) && Links(s, rank, e))
  }

  // --- sorted() -------------------------------------------------------------------

  lemma ListCons(rank: string -> int, x: string, s: seq<string>)
    ensures (IdList(rank, s) && x !in s && forall y :: y in s ==> rank(x) <= rank(y)) <==> IdList(rank, [x] + s)
  {
    var r := [x] + s;
    if IdList(rank, r) {
      forall i, j | 0 <= i < j < |s|
        ensures s[i] != s[j] && rank(s[i]) <= rank(s[j])
      {
        assert s[i] == r[i + 1] && s[j] == r[j + 1];
      }
      forall i | 0 <= i < |s|
        ensures x != s[i] && rank(x) <= rank(s[i])
      {
        assert x == r[0] && s[i] == r[i + 1];
      }
    }
  }

  function Insert(rank: string -> int, x: string, s: seq<string>): (r: seq<string>)
    decreases |s|
  {
    if s == [] || rank(x) < rank(s[0]) then [x] + s else [s[0]] + Insert(rank, x, s[1..])
  }

  lemma {:induction false} InsertLists(rank: string -> int, x: string, s: seq<string>)
    requires IdList(rank, s) && x !in s
    ensures IdList(rank, Insert(rank, x, s)) && forall y :: y in Insert(rank, x, s) <==> y == x || y in s
    decreases |s|
  {
    if s == [] {
    } else {
      hide IdList;
      assert s == [s[0]] + s[1..];
      ListCons(rank, s[0], s[1..]);
      if rank(x) < rank(s[0]) {
        ListCons(rank, x, s);
      } else {
        InsertLists(rank, x, s[1..]);
        ListCons(rank, s[0], Insert(rank, x, s[1..]));
      }
    }
  }

  function Sorted(rank: string -> int, s: seq<string>): (r: seq<string>)
    requires Distinct(s)
    ensures IdList(rank, r) && forall y :: y in r <==> y in s
    decreases |s|
  {
    if s == [] then []
    else
      var front := Sorted(rank, s[..|s| - 1]);
      InsertLists(rank, s[|s| - 1], front);
      Insert(rank, s[|s| - 1], front)
  }

  // --- the merge ------------------------------------------------------------------

  lemma AloneIs(s: Source, sameTitle: (string, string) -> bool)
    ensures forall id :: id in s.rows.at && id !in s.notes.at ==> Alone(s, sameTitle, id) == FromRow(s.rows.at[id])
    ensures forall id :: id in s.notes.at ==>
              Alone(s, sameTitle, id)
              == FromNote(sameTitle, id, s.notes.at[id], if id in s.rows.at then Some(s.rows.at[id]) else None)
  {
  }

  // The rows without note.
  method CollectRows(s: Source, sameTitle: (string, string) -> bool) returns (entries: Dict<Entry>)
    requires s.rows.Valid()
    ensures entries.Valid()
    ensures forall id :: id in entries.at <==> id in s.rows.at && id !in s.notes.at
    ensures forall id :: id in entries.at ==> entries.at[id] == Alone(s, sameTitle, id)
  {
    AloneIs(s, sameTitle);
    hide Alone, FromRow, FromNote;
    entries := Dict([], map[]);
    for i := 0 to |s.rows.keys|
      invariant entries.Valid()
      invariant forall id :: id in entries.at <==> id in s.rows.keys[..i] && id !in s.notes.at
      invariant forall id :: id in entries.at ==> entries.at[id] == Alone(s, sameTitle, id)
    {
      var rid := s.rows.keys[i];
      if rid !in s.notes.at {
        entries := entries.Put(rid, FromRow(s.rows.at[rid]));
      }
    }
  }

  // The rows without note, then the notes.
  method CollectEntries(s: Source, sameTitle: (string, string) -> bool) returns (entries: Dict<Entry>)
    requires s.notes.Valid() && s.rows.Valid()
    ensures entries.Valid()
    ensures forall id :: id in entries.at <==> id in s.notes.at || id in s.rows.at
    ensures forall id :: id in entries.at ==> entries.at[id] == Alone(s, sameTitle, id)
  {
    AloneIs(s, sameTitle);
    entries := CollectRows(s, sameTitle);
    hide Alone, FromRow, FromNote;
    for i := 0 to |s.notes.keys|
      invariant entries.Valid()
      invariant forall id :: id in entries.at <==>
                               id in s.notes.keys[..i] || (id in s.rows.at && id !in s.notes.at)
      invariant forall id :: id in entries.at ==> entries.at[id] == Alone(s, sameTitle, id)
    {
      var rid := s.notes.keys[i];
      var row := if rid in s.rows.at then Some(s.rows.at[rid]) else None;
      entries := entries.Put(rid, FromNote(sameTitle, rid, s.notes.at[rid], row));
    }
  }

  type Relation = map<string, seq<string>>

  ghost predicate Related(r: Relation, a: string, b: string) {
    a in r && b in r[a]
  }

  ghost predicate Lists(r: Relation, ids: set<string>) {
    r.Keys == ids && forall a :: a in r ==> Distinct(r[a])
  }

  function AddTo(r: Relation, a: string, b: string): (r': Relation)
    requires a in r
    ensures Lists(r, r.Keys) ==> Lists(r', r.Keys)
    ensures forall x, y :: Related(r', x, y) <==> Related(r, x, y) || (x == a && y == b)
  {
    if b in r[a] then r else r[a := r[a] + [b]]
  }

  lemma LinksToAppend(links: seq<Link>, link: Link, byKey: map<string, string>)
    ensures forall f :: LinksTo(links + [link], byKey, f) <==> LinksTo(links, byKey, f) || LeadsTo(link, byKey, f)
  {
    forall f
      ensures LinksTo(links + [link], byKey, f) <==> LinksTo(links, byKey, f) || LeadsTo(link, byKey, f)
    {
      assert forall l :: l in links + [link] <==> l in links || l == link;
    }
  }

  // The `supersedes` links of one note.
  method AddLinks(rid: string, links: seq<Link>, byKey: map<string, string>, ids: set<string>, newer: Relation, older: Relation)
    returns (newer': Relation, older': Relation)
    requires rid in ids && Lists(newer, ids) && Lists(older, ids)
    requires forall t :: t in byKey ==> byKey[t] in ids && byKey[t] != ""
    ensures Lists(newer', ids) && Lists(older', ids)
    ensures forall x, y :: Related(newer', x, y) <==>
                             Related(newer, x, y) || (x == rid && y != rid && LinksTo(links, byKey, y))
    ensures forall x, y :: Related(older', x, y) <==>
                             Related(older, x, y) || (y == rid && x != rid && LinksTo(links, byKey, x))
  {
    hide Related, LinksTo, Distinct;
    newer', older' := newer, older;
    LinksToNothing(byKey);
    for i := 0 to |links|
      invariant Lists(newer', ids) && Lists(older', ids)
      invariant forall x, y :: Related(newer', x, y) <==>
                                 Related(newer, x, y) || (x == rid && y != rid && LinksTo(links[..i], byKey, y))
      invariant forall x, y :: Related(older', x, y) <==>
                                 Related(older, x, y) || (y == rid && x != rid && LinksTo(links[..i], byKey, x))
    {
      var link := links[i];
      assert links[..i + 1] == links[..i] + [link];
      LinksToAppend(links[..i], link, byKey);
      if link.kind != "supersedes" {
        continue;
      }
      var former := if link.target.Some? && link.target.value in byKey then byKey[link.target.value] else "";
      if former != "" && former != rid && former in ids {
        newer', older' := AddTo(newer', rid, former), AddTo(older', former, rid);
      }
    }
    assert links[..|links|] == links;
  }

  lemma LinksToNothing(byKey: map<string, string>)
    ensures forall f :: !LinksTo([], byKey, f)
  {
  }

  method CollectLinks(s: Source, ids: set<string>) returns (newer: Relation, older: Relation)
    requires s.notes.Valid() && forall id :: id in s.notes.at ==> id in ids
    requires forall t :: t in s.byKey ==> s.byKey[t] in ids && s.byKey[t] != ""
    ensures Lists(newer, ids) && Lists(older, ids)
    ensures forall x, y :: Related(newer, x, y) <==> Replaces(s, x, y)
    ensures forall x, y :: Related(older, x, y) <==> Replaces(s, y, x)
  {
    newer, older := map id | id in ids :: [], map id | id in ids :: [];
    assert Lists(newer, ids) && Lists(older, ids);
    hide LinksTo, Distinct;
    for i := 0 to |s.notes.keys|
      invariant Lists(newer, ids) && Lists(older, ids)
      invariant forall x, y :: Related(newer, x, y) <==> x in s.notes.keys[..i] && Replaces(s, x, y)
      invariant forall x, y :: Related(older, x, y) <==> y in s.notes.keys[..i] && Replaces(s, y, x)
    {
      var rid := s.notes.keys[i];
      newer, older := AddLinks(rid, s.notes.at[rid].links, s.byKey, ids, newer, older);
    }
  }

  function Linked(rank: string -> int, e: Entry, newer: seq<string>, older: seq<string>): Entry
    requires Distinct(newer) && Distinct(older)
  {
    e.(supersedes := Sorted(rank, newer), supersededBy := Sorted(rank, older))
  }

  lemma LinkedIsRight(s: Source, rank: string -> int, sameTitle: (string, string) -> bool, id: string, newer: Relation, older: Relation)
    requires id in s.notes.at || id in s.rows.at
    requires Alone(s, sameTitle, id).id == id
    requires id in newer && id in older && Distinct(newer[id]) && Distinct(older[id])
    requires forall x, y :: Related(newer, x, y) <==> Replaces(s, x, y)
    requires forall x, y :: Related(older, x, y) <==> Replaces(s, y, x)
    ensures var e := Linked(rank, Alone(s, sameTitle, id), newer[id], older[id]);
            e.id == id && Describes(s, sameTitle, e) && Links(s, rank, e)
  {
    hide Replaces, Sorted;
    assert Alone(s, sameTitle, id).(supersedes := [], supersededBy := []) == Alone(s, sameTitle, id);
    hide Alone;
    assert forall y :: y in newer[id] <==> Related(newer, id, y);
    assert forall y :: y in older[id] <==> Related(older, id, y);
  }

  method OrderEntries(s: Source, rank: string -> int, sameTitle: (string, string) -> bool, entries: Dict<Entry>, newer: Relation, older: Relation)
    returns (ordered: seq<Entry>)
    requires entries.Valid()
    requires forall id :: id in entries.at <==> id in s.notes.at || id in s.rows.at
    requires forall id :: id in entries.at ==> entries.at[id] == Alone(s, sameTitle, id) && entries.at[id].id == id
    requires Lists(newer, entries.at.Keys) && Lists(older, entries.at.Keys)
    requires forall x, y :: Related(newer, x, y) <==> Replaces(s, x, y)
    requires forall x, y :: Related(older, x, y) <==> Replaces(s, y, x)
    ensures IsSnapshot(s, rank, sameTitle, ordered)
  {
    hide Replaces, Sorted, Alone, Describes, Links, Linked, Related, IdList, Ids;
    var ids := Sorted(rank, entries.keys);
    ordered := [];
    for i := 0 to |ids|
      invariant Ids(ordered) == ids[..i]
      invariant forall e :: e in ordered ==> Describes(s, sameTitle, e) && Links(s, rank, e)
    {
      var id := ids[i];
      LinkedIsRight(s, rank, sameTitle, id, newer, older);
      IdsPush(ordered, Linked(rank, entries.at[id], newer[id], older[id]));
      ordered := ordered + [Linked(rank, entries.at[id], newer[id], older[id])];
    }
    assert ids[..|ids|] == ids;
  }

  lemma ReadKeys(decisions: seq<Decision>, notes: seq<Note>, sameTitle: (string, string) -> bool)
    ensures var s := Read(decisions, notes);
            && (forall id :: id in s.notes.at ==> DecId(id))
            && (forall t :: t in s.byKey ==> s.byKey[t] in s.notes.at && s.byKey[t] != "")
            && (forall id :: id in s.notes.at || id in s.rows.at ==> Alone(s, sameTitle, id).id == id)
  {
    var s := Read(decisions, notes);
    forall id | id in s.notes.at
      ensures DecId(id)
    {
      IndexHoldsTheLast(notes, NoteId, id);
    }
    forall id | id in s.rows.at
      ensures s.rows.at[id].id == id
    {
      IndexHoldsTheLast(decisions, DecisionId, id);
    }
  }

  function Rank(number: string -> Option<int>): string -> int {
    id => number(id).GetOr(0)
  }

  // build_snapshot. `number` reads the integer after the first hyphen, as the
  // sort keys do; an id without one makes the whole merge fail.
  method BuildSnapshot(
      number: string -> Option<int>, sameTitle: (string, string) -> bool,
      project: string, decisions: seq<Decision>, notes: seq<Note>)
    returns (r: Option<Snapshot>)
    ensures var s := Read(decisions, notes);
            r.None? <==> exists id :: (id in s.notes.at || id in s.rows.at) && number(id).None?
    ensures r.Some? ==>
              && r.value.format == EXPORT_FORMAT && r.value.projectId == project
              && IsSnapshot(Read(decisions, notes), Rank(number), sameTitle, r.value.decisions)
  {
    hide *;
    var s := Read(decisions, notes);
    var entries := CollectEntries(s, sameTitle);
    entries.HasItsKeys();
    ReadKeys(decisions, notes, sameTitle);
    var newer, older := CollectLinks(s, entries.at.Keys);
    if exists id :: id in entries.keys && number(id).None? {
      return None;
    }
    var ordered := OrderEntries(s, Rank(number), sameTitle, entries, newer, older);
    r := Some(Snapshot(EXPORT_FORMAT, project, ordered));
  }

  // --- what a reader of the snapshot relies on ---------------------------------------

  // Both sides of every link name decisions of the snapshot, never the same one,
  // and each side mirrors the other.
  ghost predicate WellLinked(entries: seq<Entry>) {
    && (forall e, id :: e in entries && (id in e.supersedes || id in e.supersededBy) ==> id in Ids(entries) && id != e.id)
    && (forall e, f :: e in entries && f in entries ==> (f.id in e.supersedes <==> e.id in f.supersededBy))
  }

  lemma SnapshotIsWellLinked(decisions: seq<Decision>, notes: seq<Note>, rank: string -> int, sameTitle: (string, string) -> bool, entries: seq<Entry>)
    requires IsSnapshot(Read(decisions, notes), rank, sameTitle, entries)
    ensures WellLinked(entries)
  {
    ReadKeys(decisions, notes, sameTitle);
    var s := Read(decisions, notes);
    hide Read, Describes, IdList, Alone;
    forall e, id | e in entries && (id in e.supersedes || id in e.supersededBy)
      ensures id in Ids(entries) && id != e.id
    {
      assert Replaces(s, e.id, id) || Replaces(s, id, e.id);
    }
  }

  // --- entry by entry, on the notes and rows themselves --------------------------------

  predicate Numbers(n: Note, id: string) {
    n.noteType == Some("decision") && n.readableId == Some(id) && DecId(id)
  }

  // The last decision note of a number, and the last row.
  ghost predicate LastNote(notes: seq<Note>, id: string, i: nat) {
    i < |notes| && Numbers(notes[i], id) && forall j :: i < j < |notes| ==> !Numbers(notes[j], id)
  }

  ghost predicate LastRow(decisions: seq<Decision>, id: string, i: nat) {
    i < |decisions| && decisions[i].id == id && forall j :: i < j < |decisions| ==> decisions[j].id != id
  }

  ghost predicate HasNote(notes: seq<Note>, id: string) {
    exists n :: n in notes && Numbers(n, id)
  }

  ghost predicate HasRow(decisions: seq<Decision>, id: string) {
    exists d :: d in decisions && d.id == id
  }

  lemma LastAtIs<T>(xs: seq<T>, key: T -> Option<string>, k: string, i: nat)
    requires i < |xs| && key(xs[i]) == Some(k) && forall j :: i < j < |xs| ==> key(xs[j]) != Some(k)
    ensures LastAt(xs, key, k) == Some(i)
  {
    var at := LastAt(xs, key, k);
    assert xs[i] in xs;
  }

  lemma NumbersIsNoteId(id: string)
    ensures forall n :: Numbers(n, id) <==> NoteId(n) == Some(id)
  {
  }

  lemma NotesAreIndexed(decisions: seq<Decision>, notes: seq<Note>)
    ensures Read(decisions, notes).notes == IndexBy(notes, NoteId)
  {
  }

  lemma LastNoteIsRead(decisions: seq<Decision>, notes: seq<Note>, id: string, i: nat)
    requires LastNote(notes, id, i)
    ensures id in Read(decisions, notes).notes.at && Read(decisions, notes).notes.at[id] == notes[i]
  {
    hide IndexBy, Numbers, NoteId, Read, LastAt;
    NumbersIsNoteId(id);
    NotesAreIndexed(decisions, notes);
    LastAtIs(notes, NoteId, id, i);
    IndexHoldsTheLast(notes, NoteId, id);
  }

  lemma ReadHasNote(decisions: seq<Decision>, notes: seq<Note>, id: string)
    ensures id in Read(decisions, notes).notes.at <==> HasNote(notes, id)
  {
    hide IndexBy, Numbers, NoteId, Read, LastAt;
    NumbersIsNoteId(id);
    NotesAreIndexed(decisions, notes);
    IndexHoldsTheLast(notes, NoteId, id);
    var at := LastAt(notes, NoteId, id);
    if at.Some? {
      assert notes[at.value] in notes;
    }
  }

  lemma ReadHasRow(decisions: seq<Decision>, notes: seq<Note>, id: string)
    ensures id in Read(decisions, notes).rows.at <==> HasRow(decisions, id)
    ensures forall i: nat :: LastRow(decisions, id, i) ==>
              id in Read(decisions, notes).rows.at && Read(decisions, notes).rows.at[id] == decisions[i]
  {
    hide IndexBy, LastAt, ReadableByKey;
    IndexHoldsTheLast(decisions, DecisionId, id);
    var at := LastAt(decisions, DecisionId, id);
    if at.Some? {
      assert decisions[at.value] in decisions;
    }
    if d :| d in decisions && d.id == id {
      assert DecisionId(d) == Some(id);
    }
  }

  // Every number of a decision note or a row has an entry, and no other.
  lemma SnapshotIdsExactly(
      decisions: seq<Decision>, notes: seq<Note>, rank: string -> int, sameTitle: (string, string) -> bool, entries: seq<Entry>, id: string)
    requires IsSnapshot(Read(decisions, notes), rank, sameTitle, entries)
    ensures id in Ids(entries) <==> HasNote(notes, id) || HasRow(decisions, id)
  {
    ReadHasNote(decisions, notes, id);
    ReadHasRow(decisions, notes, id);
    hide Read, Describes, Links, IdList, HasNote, HasRow;
  }

  // str(value)[:10], nothing for a missing or empty value.
  ghost predicate Dated(date: Option<string>, value: Option<string>) {
    if value.None? || value.value == "" then date.None?
    else
      && date.Some? && Prefix(date.value, value.value)
      && |date.value| == if |value.value| < 10 then |value.value| else 10
  }

  // The numbered note wins: title, status, body and source are its own, whatever
  // the rows say.
  lemma NoteWins(
      decisions: seq<Decision>, notes: seq<Note>, rank: string -> int, sameTitle: (string, string) -> bool, entries: seq<Entry>,
      e: Entry, i: nat)
    requires IsSnapshot(Read(decisions, notes), rank, sameTitle, entries) && e in entries && LastNote(notes, e.id, i)
    ensures var n := notes[i];
            && e.source == FromVault
            && e.title == (if n.title.Some? && n.title.value != "" then n.title.value else e.id)
            && e.body == (if n.body.Some? then n.body.value else "")
            && (e.status == "accepted" <==> n.status == Some("validated"))
            && (e.status == "superseded" <==> n.status == Some("superseded"))
            && e.status in {"accepted", "superseded", "proposed"}
  {
    LastNoteIsRead(decisions, notes, e.id, i);
    assert Describes(Read(decisions, notes), sameTitle, e);
    hide Read, IsSnapshot, Day, LastNote;
  }

  // Date and task are the row's when there is one with a like title, and otherwise
  // the date is the note's and there is no task.
  lemma RowFillsDateAndTask(
      decisions: seq<Decision>, notes: seq<Note>, rank: string -> int, sameTitle: (string, string) -> bool, entries: seq<Entry>,
      e: Entry, i: nat, row: Option<nat>)
    requires IsSnapshot(Read(decisions, notes), rank, sameTitle, entries) && e in entries && LastNote(notes, e.id, i)
    requires if row.Some? then LastRow(decisions, e.id, row.value) else !HasRow(decisions, e.id)
    ensures if row.Some? && sameTitle(decisions[row.value].title, e.title) then
              Dated(e.date, decisions[row.value].createdAt) && e.taskId == decisions[row.value].taskId
            else
              Dated(e.date, notes[i].createdAt) && e.taskId == None
  {
    LastNoteIsRead(decisions, notes, e.id, i);
    ReadHasRow(decisions, notes, e.id);
    assert Describes(Read(decisions, notes), sameTitle, e);
    hide Read, IsSnapshot, HasRow, LastNote, LastRow;
  }

  lemma NoMembers(s: seq<string>)
    ensures (forall x :: x !in s) ==> s == []
  {
    assert s != [] ==> s[0] in s;
  }

  // A row without a note stands alone.
  lemma RowStandsAlone(
      decisions: seq<Decision>, notes: seq<Note>, rank: string -> int, sameTitle: (string, string) -> bool, entries: seq<Entry>,
      e: Entry, k: nat)
    requires IsSnapshot(Read(decisions, notes), rank, sameTitle, entries) && e in entries
    requires !HasNote(notes, e.id) && LastRow(decisions, e.id, k)
    ensures var d := decisions[k];
            && e.source == FromDecision && e.title == d.title && e.taskId == d.taskId && Dated(e.date, d.createdAt)
            && e.body == (if d.body.Some? then d.body.value else "")
            && e.status == (if d.status == "accepted" || d.status == "superseded" then d.status else "proposed")
            && e.supersedes == []
  {
    ReadHasNote(decisions, notes, e.id);
    ReadHasRow(decisions, notes, e.id);
    assert Describes(Read(decisions, notes), sameTitle, e) && Links(Read(decisions, notes), rank, e);
    hide Read, IsSnapshot, HasNote, LastRow, IdList, NoteStatus, LinksTo;
    NoMembers(e.supersedes);
  }

  // Of notes with one key the one last in the dictionary is meant.
  lemma {:induction false} KeyLeadsToTheLast(notes: Dict<Note>, n: nat, i: nat)
    requires notes.Valid() && i < n <= |notes.keys| && Truthy(notes.at[notes.keys[i]].key)
    requires forall j :: i < j < n ==> notes.at[notes.keys[j]].key != notes.at[notes.keys[i]].key
    ensures var t := notes.at[notes.keys[i]].key.value;
            t in ReadableByKey(notes, n) && ReadableByKey(notes, n)[t] == notes.keys[i]
    decreases n
  {
    if i < n - 1 {
      KeyLeadsToTheLast(notes, n - 1, i);
      assert notes.at[notes.keys[n - 1]].key != notes.at[notes.keys[i]].key;
    }
  }

  // No two of the notes that count have one key.
  ghost predicate OwnKeys(notes: seq<Note>) {
    forall a, b, i: nat, j: nat :: LastNote(notes, a, i) && LastNote(notes, b, j) && Truthy(notes[i].key) && notes[i].key == notes[j].key ==> a == b
  }

  lemma LastNoteOf(decisions: seq<Decision>, notes: seq<Note>, id: string) returns (i: nat)
    requires id in Read(decisions, notes).notes.at
    ensures LastNote(notes, id, i) && Read(decisions, notes).notes.at[id] == notes[i]
  {
    IndexHoldsTheLast(notes, NoteId, id);
    i := LastAt(notes, NoteId, id).value;
    assert forall n :: Numbers(n, id) <==> NoteId(n) == Some(id);
    hide DecId, Numbers, NoteId;
  }

  // An entry supersedes exactly the decisions that a `supersedes` link of its own
  // note names by the key of their note.
  lemma SupersedesExactly(
      decisions: seq<Decision>, notes: seq<Note>, rank: string -> int, sameTitle: (string, string) -> bool, entries: seq<Entry>,
      e: Entry, i: nat, former: string, j: nat)
    requires IsSnapshot(Read(decisions, notes), rank, sameTitle, entries) && e in entries && OwnKeys(notes)
    requires LastNote(notes, e.id, i) && LastNote(notes, former, j)
    ensures former in e.supersedes
            <==> && former != e.id && Truthy(notes[j].key)
                 && exists l :: l in notes[i].links && l.kind == "supersedes" && l.target == notes[j].key
  {
    var s := Read(decisions, notes);
    LastNoteIsRead(decisions, notes, e.id, i);
    LastNoteIsRead(decisions, notes, former, j);
    assert Links(s, rank, e);
    KeysLead(decisions, notes, former, j);
    hide Read, IsSnapshot, Links, LastNote, OwnKeys, Truthy;
  }

  lemma KeysLead(decisions: seq<Decision>, notes: seq<Note>, former: string, j: nat)
    requires OwnKeys(notes) && LastNote(notes, former, j)
    ensures forall t :: (t in Read(decisions, notes).byKey && Read(decisions, notes).byKey[t] == former
                         <==> notes[j].key == Some(t) && t != "")
  {
    var s := Read(decisions, notes);
    LastNoteIsRead(decisions, notes, former, j);
    forall t
      ensures t in s.byKey && s.byKey[t] == former <==> notes[j].key == Some(t) && t != ""
    {
      if t in s.byKey {
        var k := LastNoteOf(decisions, notes, s.byKey[t]);
      }
      if notes[j].key == Some(t) && t != "" {
        var n :| 0 <= n < |s.notes.keys| && s.notes.keys[n] == former;
      }
    }
  }

  // `number` reads DEC-0012 as 12.
  ghost predicate ReadsDigits(number: string -> Option<int>) {
    forall id :: DecId(id) ==> number(id) == Some(DecimalValue(id[4..]))
  }

  lemma SameDecId(a: string, b: string)
    requires DecId(a) && DecId(b) && |a| == |b| && DecimalValue(a[4..]) == DecimalValue(b[4..])
    ensures a == b
  {
    SameNumeral(a[4..], b[4..]);
    assert a == a[..4] + a[4..] && b == b[..4] + b[4..];
  }

  // Four-digit ids come in strictly increasing order.
  lemma FourDigitsAscend(number: string -> Option<int>, ids: seq<string>)
    requires ReadsDigits(number) && IdList(Rank(number), ids)
    requires forall id :: id in ids ==> DecId(id) && |id| == 8
    ensures forall i, j :: 0 <= i < j < |ids| ==> DecimalValue(ids[i][4..]) < DecimalValue(ids[j][4..])
  {
    forall i, j | 0 <= i < j < |ids|
      ensures DecimalValue(ids[i][4..]) < DecimalValue(ids[j][4..])
    {
      assert ids[i] in ids && ids[j] in ids;
      assert Rank(number)(ids[i]) == DecimalValue(ids[i][4..]);
      assert Rank(number)(ids[j]) == DecimalValue(ids[j][4..]);
      if DecimalValue(ids[i][4..]) == DecimalValue(ids[j][4..]) {
        SameDecId(ids[i], ids[j]);
      }
    }
  }
}
