// A whole synchronisation run over the vault: index, plan, apply, plan again
// (scripts/vault_sync.py, scripts/adr_common.py). Notes are read with universal
// newlines and written as they are.
module VaultSyncRun {
  import opened Basics
  import opened JsonValues
  import opened TextMode
  import opened AdrMarkdown
  import opened VaultSync

  // File name to content on disk, in the vault's decision directory.
  type Vault = map<string, string>

  function LoadNote(yaml: Yaml, text: string): Option<Note> {
    var parts := SplitFrontMatter(Universal(text));
    if parts.None? then None
    else
      var fm := yaml.load(parts.value.front);
      if Falsy(fm) then Some(Note(map[], parts.value.rest))
      else if fm.Obj? then Some(Note(fm.fields, parts.value.rest))
      else None
  }

  function WriteNote(yaml: Yaml, note: Note): string {
    "---\n" + yaml.dump(note.fm) + "---\n" + note.body
  }

  // What reading makes of a note that was written.
  function AsRead(note: Note): Note {
    note.(body := Universal(note.body))
  }

  // The front matter comes back as written, and the body exactly when it holds no
  // carriage return.
  lemma WrittenReadsBack(yaml: Yaml, note: Note)
    requires Lawful(yaml)
    ensures LoadNote(yaml, WriteNote(yaml, note)) == Some(AsRead(note))
    ensures LoadNote(yaml, WriteNote(yaml, note)) == Some(note) <==> '\r' !in note.body
  {
    hide SplitFrontMatter, Universal;
    var front := "---\n" + yaml.dump(note.fm) + "---\n";
    UniversalAppend(front, note.body);
    UniversalIsExact(note.body);
    RenderSplits(yaml, note.fm, Universal(note.body));
  }

  lemma RestHolds(text: string)
    ensures var parts := SplitFrontMatter(text); parts.Some? ==> forall c :: c in parts.value.rest ==> c in text
  {
  }

  // A body that was read holds none.
  lemma LoadedReadsAgain(yaml: Yaml, text: string)
    ensures LoadNote(yaml, text).Some? ==> AsRead(LoadNote(yaml, text).value) == LoadNote(yaml, text).value
  {
    hide SplitFrontMatter, Universal;
    RestHolds(Universal(text));
    if LoadNote(yaml, text).Some? {
      UniversalIsExact(LoadNote(yaml, text).value.body);
    }
  }

  // --- the body on disk ---------------------------------------------------------------

  // What the file holds after its front matter.
  function RawBody(text: string): string {
    var parts := SplitFrontMatter(Universal(text));
    if parts.None? then "" else Rest(text, |Universal(text)| - |parts.value.rest|)
  }

  lemma RestIsSuffix(text: string)
    ensures var parts := SplitFrontMatter(text);
            parts.Some? ==> |parts.value.rest| <= |text| && text[|text| - |parts.value.rest|..] == parts.value.rest
  {
  }

  lemma RawBodyReads(yaml: Yaml, text: string)
    ensures LoadNote(yaml, text).Some? ==> Universal(RawBody(text)) == LoadNote(yaml, text).value.body
  {
    hide SplitFrontMatter, Universal, Rest;
    var parts := SplitFrontMatter(Universal(text));
    RestIsSuffix(Universal(text));
    if parts.Some? {
      RestReads(text, |Universal(text)| - |parts.value.rest|);
    }
  }

  lemma WrittenRawBody(yaml: Yaml, note: Note)
    requires Lawful(yaml)
    ensures RawBody(WriteNote(yaml, note)) == note.body
  {
    hide SplitFrontMatter, Universal, Rest;
    var front := "---\n" + yaml.dump(note.fm) + "---\n";
    assert WriteNote(yaml, note) == front + note.body;
    RestAppend(front, note.body);
    RenderSplits(yaml, note.fm, Universal(note.body));
  }

  // --- the index -------------------------------------------------------------------

  predicate FourDigits(id: string) {
    |id| == 8 && DecId(id)
  }

  // DEC- and four digits, no more and no less.
  lemma FourDigitsExactly(id: string)
    ensures FourDigits(id) <==>
              |id| == 8 && id[0] == 'D' && id[1] == 'E' && id[2] == 'C' && id[3] == '-'
              && forall i :: 4 <= i < 8 ==> '0' <= id[i] <= '9'
  {
    if |id| == 8 {
      assert id[..4] == [id[0], id[1], id[2], id[3]];
      assert forall i :: 4 <= i < 8 ==> id[i] == id[4..][i - 4] && id[i] in id[4..];
    }
  }

  predicate HasAlias(note: Note, id: string) {
    FourDigits(id) && Str(id) in Items(Get(note.fm, "aliases"))
  }

  predicate Aliased(yaml: Yaml, vault: Vault, name: string, id: string) {
    name in vault && LoadNote(yaml, vault[name]).Some? && HasAlias(LoadNote(yaml, vault[name]).value, id)
  }

  // The last of the listed notes with the alias.
  function Holder(yaml: Yaml, vault: Vault, names: seq<string>, id: string): (t: Option<Target>)
    decreases |names|
  {
    if names == [] then None
    else
      var name := names[|names| - 1];
      if Aliased(yaml, vault, name, id) then Some(Target(name, LoadNote(yaml, vault[name]).value))
      else Holder(yaml, vault, names[..|names| - 1], id)
  }

  // One note under each of its aliases.
  method IndexNote(was: map<string, Target>, name: string, note: Note) returns (index: map<string, Target>)
    ensures forall id :: id in index <==> id in was || HasAlias(note, id)
    ensures forall id :: id in index ==> index[id] == if HasAlias(note, id) then Target(name, note) else was[id]
  {
    hide FourDigits;
    index := was;
    var aliases := Items(Get(note.fm, "aliases"));
    for j := 0 to |aliases|
      invariant forall id :: id in index <==> id in was || (FourDigits(id) && Str(id) in aliases[..j])
      invariant forall id :: id in index ==>
                               index[id] == if FourDigits(id) && Str(id) in aliases[..j] then Target(name, note) else was[id]
    {
      if aliases[j].Str? && FourDigits(aliases[j].s) {
        index := index[aliases[j].s := Target(name, note)];
      }
    }
    assert aliases[..|aliases|] == aliases;
  }

  method IndexVault(yaml: Yaml, vault: Vault, names: seq<string>) returns (index: map<string, Target>)
    requires forall n :: n in names ==> n in vault
    ensures forall id :: id in index <==> Holder(yaml, vault, names, id).Some?
    ensures forall id :: id in index ==> Holder(yaml, vault, names, id) == Some(index[id])
  {
    hide LoadNote, HasAlias;
    index := map[];
    for i := 0 to |names|
      invariant forall id :: id in index <==> Holder(yaml, vault, names[..i], id).Some?
      invariant forall id :: id in index ==> Holder(yaml, vault, names[..i], id) == Some(index[id])
    {
      var name := names[i];
      assert names[..i + 1][..i] == names[..i];
      var note := LoadNote(yaml, vault[name]);
      if note.Some? {
        index := IndexNote(index, name, note.value);
      }
    }
    assert names[..|names|] == names;
  }

  // --- plan and apply ------------------------------------------------------------------

  ghost predicate Readable(yaml: Yaml, vault: Vault) {
    forall n :: n in vault && LoadNote(yaml, vault[n]).Some? ==> WellShaped(LoadNote(yaml, vault[n]).value.fm)
  }

  ghost predicate Plans(env: Env, yaml: Yaml, adrs: seq<Adr>, vault: Vault, names: seq<string>, actions: seq<Action>) {
    |actions| == |adrs|
    && forall i :: 0 <= i < |adrs| ==> actions[i] == Planned(env, adrs[i], Holder(yaml, vault, names, AdrId(adrs[i])))
  }

  lemma HolderIsLoaded(yaml: Yaml, vault: Vault, names: seq<string>, id: string)
    ensures var t := Holder(yaml, vault, names, id);
            t.Some? ==> t.value.name in names && Aliased(yaml, vault, t.value.name, id)
                        && LoadNote(yaml, vault[t.value.name]) == Some(t.value.note)
    decreases |names|
  {
    hide LoadNote, HasAlias;
    if names != [] && !Aliased(yaml, vault, names[|names| - 1], id) {
      HolderIsLoaded(yaml, vault, names[..|names| - 1], id);
    }
  }

  lemma HolderIsShaped(yaml: Yaml, vault: Vault, names: seq<string>, id: string)
    requires Readable(yaml, vault)
    ensures var t := Holder(yaml, vault, names, id); t.Some? ==> WellShaped(t.value.note.fm)
  {
    hide LoadNote, WellShaped, HasAlias;
    HolderIsLoaded(yaml, vault, names, id);
  }

  method PlanSync(env: Env, yaml: Yaml, adrs: seq<Adr>, vault: Vault, names: seq<string>) returns (actions: seq<Action>)
    requires forall n :: n in names ==> n in vault
    requires Readable(yaml, vault) && forall a :: a in adrs ==> WellFormed(a)
    ensures Plans(env, yaml, adrs, vault, names, actions)
  {
    hide Planned, LoadNote, WellFormed, WellShaped, Aliased, Holder, Readable;
    var index := IndexVault(yaml, vault, names);
    actions := [];
    for i := 0 to |adrs|
      invariant Plans(env, yaml, adrs[..i], vault, names, actions)
    {
      var id := AdrId(adrs[i]);
      HolderIsShaped(yaml, vault, names, id);
      var target := if id in index then Some(index[id]) else None;
      var action := PlanOne(env, adrs[i], target);
      actions := actions + [action];
    }
    assert adrs[..|adrs|] == adrs;
  }

  function Applied(yaml: Yaml, vault: Vault, actions: seq<Action>): Vault
    decreases |actions|
  {
    if actions == [] then vault
    else
      var last, rest := actions[|actions| - 1], Applied(yaml, vault, actions[..|actions| - 1]);
      if last.written.Some? then rest[last.name := WriteNote(yaml, last.written.value)] else rest
  }

  method ApplySync(yaml: Yaml, vault: Vault, actions: seq<Action>) returns (after: Vault)
    ensures after == Applied(yaml, vault, actions)
  {
    hide WriteNote;
    after := vault;
    for i := 0 to |actions|
      invariant after == Applied(yaml, vault, actions[..i])
    {
      assert actions[..i + 1][..i] == actions[..i];
      if actions[i].written.Some? {
        after := after[actions[i].name := WriteNote(yaml, actions[i].written.value)];
      }
    }
    assert actions[..|actions|] == actions;
  }

  // --- the order of names ------------------------------------------------------------

  ghost predicate TotalOrder(less: (string, string) -> bool) {
    && (forall a :: !less(a, a))
    && (forall a, b, c :: less(a, b) && less(b, c) ==> less(a, c))
    && (forall a, b :: a == b || less(a, b) || less(b, a))
  }

  // The directory listed in that order.
  ghost predicate Listing(less: (string, string) -> bool, names: seq<string>, vault: Vault) {
    && (forall i, j :: 0 <= i < j < |names| ==> less(names[i], names[j]))
    && (forall n :: n in names <==> n in vault)
  }

  // The greatest name among the notes with the alias.
  ghost predicate Holds(yaml: Yaml, vault: Vault, less: (string, string) -> bool, id: string, name: string) {
    && Aliased(yaml, vault, name, id)
    && forall n :: Aliased(yaml, vault, n, id) ==> n == name || less(n, name)
  }

  lemma {:induction false} HolderIsLast(yaml: Yaml, vault: Vault, names: seq<string>, id: string) returns (at: int)
    ensures at < |names| && (Holder(yaml, vault, names, id).None? <==> at < 0)
    ensures at >= 0 ==> Aliased(yaml, vault, names[at], id)
                        && Holder(yaml, vault, names, id) == Some(Target(names[at], LoadNote(yaml, vault[names[at]]).value))
    ensures forall j :: 0 <= j < |names| && at < j ==> !Aliased(yaml, vault, names[j], id)
    decreases |names|
  {
    hide LoadNote, HasAlias;
    at := |names| - 1;
    if names != [] && !Aliased(yaml, vault, names[at], id) {
      at := HolderIsLast(yaml, vault, names[..|names| - 1], id);
    }
  }

  lemma HolderIsGreatest(yaml: Yaml, vault: Vault, less: (string, string) -> bool, names: seq<string>, id: string)
    requires TotalOrder(less) && Listing(less, names, vault)
    ensures var t := Holder(yaml, vault, names, id);
            && (t.None? ==> forall n :: !Aliased(yaml, vault, n, id))
            && (t.Some? ==> Holds(yaml, vault, less, id, t.value.name)
                            && LoadNote(yaml, vault[t.value.name]) == Some(t.value.note))
  {
    hide Aliased, Holder;
    var at := HolderIsLast(yaml, vault, names, id);
    HolderIsLoaded(yaml, vault, names, id);
    forall n | Aliased(yaml, vault, n, id)
      ensures 0 <= at && (n == names[at] || less(n, names[at]))
    {
      AliasedIsListed(yaml, vault, n, id);
      var i :| 0 <= i < |names| && names[i] == n;
    }
  }

  lemma AliasedIsListed(yaml: Yaml, vault: Vault, n: string, id: string)
    requires Aliased(yaml, vault, n, id)
    ensures n in vault
  {
    hide LoadNote, HasAlias;
  }

  lemma HoldsIsHolder(yaml: Yaml, vault: Vault, less: (string, string) -> bool, names: seq<string>, id: string, name: string)
    requires TotalOrder(less) && Listing(less, names, vault) && Holds(yaml, vault, less, id, name)
    ensures LoadNote(yaml, vault[name]).Some?
    ensures Holder(yaml, vault, names, id) == Some(Target(name, LoadNote(yaml, vault[name]).value))
  {
    hide Holder, LoadNote, HasAlias;
    HolderIsGreatest(yaml, vault, less, names, id);
    var other := Holder(yaml, vault, names, id).value.name;
    assert !(less(name, other) && less(other, name));
  }

  // --- what a run leaves -----------------------------------------------------------------

  // One run: what was read and the actions planned from it.
  datatype Run = Run(env: Env, yaml: Yaml, less: (string, string) -> bool, adrs: seq<Adr>, vault: Vault, names: seq<string>, actions: seq<Action>) {
    ghost predicate Valid() {
      && Lawful(yaml) && TotalOrder(less) && Listing(less, names, vault)
      && Plans(env, yaml, adrs, vault, names, actions)
    }

    function TargetOf(i: nat): Option<Target>
      requires i < |adrs|
    {
      Holder(yaml, vault, names, AdrId(adrs[i]))
    }

    function Result(): Vault {
      Applied(yaml, vault, actions)
    }
  }

  // The last action that writes under a name.
  function LastWrite(actions: seq<Action>, n: string): (k: Option<nat>)
    ensures k.Some? ==> k.value < |actions| && actions[k.value].written.Some? && actions[k.value].name == n
    decreases |actions|
  {
    if actions == [] then None
    else
      var last := |actions| - 1;
      if actions[last].written.Some? && actions[last].name == n then Some(last) else LastWrite(actions[..last], n)
  }

  // No later action writes under it.
  lemma {:induction false} LastWriteIsLast(actions: seq<Action>, n: string, j: nat)
    requires j < |actions| && actions[j].written.Some? && actions[j].name == n
    ensures LastWrite(actions, n).Some? && j <= LastWrite(actions, n).value
    decreases |actions|
  {
    var last := |actions| - 1;
    if j < last && !(actions[last].written.Some? && actions[last].name == n) {
      LastWriteIsLast(actions[..last], n, j);
    }
  }

  lemma {:induction false} AppliedIs(yaml: Yaml, vault: Vault, actions: seq<Action>, n: string)
    ensures var after, k := Applied(yaml, vault, actions), LastWrite(actions, n);
            && (n in after <==> n in vault || k.Some?)
            && (n in after ==> after[n] == if k.Some? then WriteNote(yaml, actions[k.value].written.value) else vault[n])
    decreases |actions|
  {
    hide WriteNote;
    if actions != [] {
      AppliedIs(yaml, vault, actions[..|actions| - 1], n);
    }
  }

  lemma RunActions(run: Run, i: nat)
    requires run.Valid() && i < |run.adrs|
    ensures |run.actions| == |run.adrs|
    ensures var action, target := run.actions[i], run.TargetOf(i);
            && action == Planned(run.env, run.adrs[i], target)
            && (action.kind == Create <==> target.None?)
            && (action.written.None? <==> action.kind == Unchanged)
            && (target.Some? ==>
                  && action.name == target.value.name && action.name in run.vault
                  && Holds(run.yaml, run.vault, run.less, AdrId(run.adrs[i]), action.name)
                  && LoadNote(run.yaml, run.vault[action.name]) == Some(target.value.note))
            && (target.None? ==> forall n :: !Aliased(run.yaml, run.vault, n, AdrId(run.adrs[i])))
            && After(action, target).Some?
  {
    hide LoadNote, Holder, Lawful, TotalOrder, Listing, HasAlias, Planned;
    PlannedShape(run.env, run.adrs[i], run.TargetOf(i));
    HolderIsGreatest(run.yaml, run.vault, run.less, run.names, AdrId(run.adrs[i]));
  }

  // An update keeps the aliases of its note.
  lemma AliasesStay(env: Env, adr: Adr, target: Option<Target>, id: string)
    ensures var action := Planned(env, adr, target);
            && (target.Some? ==> HasAlias(After(action, target).value, id) == HasAlias(target.value.note, id))
            && (target.None? ==> (HasAlias(After(action, target).value, id) <==> FourDigits(id) && id == AdrId(adr)))
  {
    hide FourDigits, Synced, NewFrontMatter, NewBody, UpToDate;
    if target.Some? {
      SyncedIs(env, adr, target.value.note.fm, "aliases");
      assert "aliases" !in MANAGED;
    } else {
      NewSourcesAre(env, adr);
    }
  }

  // Every name after a run: as the last action that writes under it left it, or
  // untouched.
  lemma NoteAfter(run: Run, n: string)
    requires run.Valid()
    ensures var k := LastWrite(run.actions, n);
            && (n in run.Result() <==> n in run.vault || k.Some?)
            && (k.None? && n in run.vault ==> run.Result()[n] == run.vault[n])
            && (k.Some? ==> LoadNote(run.yaml, run.Result()[n]) == Some(AsRead(run.actions[k.value].written.value)))
  {
    hide LoadNote, AsRead, Applied, TotalOrder, Listing, Plans;
    AppliedIs(run.yaml, run.vault, run.actions, n);
    var k := LastWrite(run.actions, n);
    if k.Some? {
      WrittenReadsBack(run.yaml, run.actions[k.value].written.value);
    }
  }

  // What becomes of the body of any note. Untouched or updated, it is kept byte for
  // byte exactly when nothing was written or it holds no carriage return: it is read,
  // and written, with every line end translated. A new note of the same name, on the
  // other hand, takes its place.
  lemma BodyAfter(run: Run, n: string)
    requires run.Valid() && n in run.vault
    ensures |run.actions| == |run.adrs| && n in run.Result()
    ensures var k, before, after := LastWrite(run.actions, n), RawBody(run.vault[n]), RawBody(run.Result()[n]);
            if k.None? then run.Result()[n] == run.vault[n]
            else if run.actions[k.value].kind == Update then
              after == Universal(before) && (after == before <==> '\r' !in before)
            else
              run.actions[k.value].kind == Create && after == NewBody(run.adrs[k.value])
  {
    hide LoadNote, Holder, Planned, WriteNote, Lawful, TotalOrder, Listing, Applied, Holds, Plans, RawBody, NewBody, NewFrontMatter;
    PlansAreMany(run);
    AppliedIs(run.yaml, run.vault, run.actions, n);
    var k := LastWrite(run.actions, n);
    if k.Some? {
      var i := k.value;
      RunActions(run, i);
      WrittenRawBody(run.yaml, run.actions[i].written.value);
      WrittenBody(run.env, run.adrs[i], run.TargetOf(i));
      RawBodyReads(run.yaml, run.vault[n]);
      UniversalIsExact(RawBody(run.vault[n]));
    }
  }

  lemma PlansAreMany(run: Run)
    requires run.Valid()
    ensures |run.actions| == |run.adrs|
  {
  }

  lemma WrittenBody(env: Env, adr: Adr, target: Option<Target>)
    ensures var action := Planned(env, adr, target);
            action.written.Some? ==>
              action.written.value.body == if target.Some? then target.value.note.body else NewBody(adr)
  {
    hide Synced, NewBody, NewFrontMatter, UpToDate, Conflicts;
  }

  // A note whose body is `a\rb` becomes one whose body is `a\nb`.
  lemma CarriageReturnIsLost(env: Env, yaml: Yaml, adr: Adr, name: string, fm: Record)
    requires Lawful(yaml) && !UpToDate(env, adr, fm)
    ensures var text := WriteNote(yaml, Note(fm, "a\rb"));
            && RawBody(text) == "a\rb" && LoadNote(yaml, text).Some?
            && var action := Planned(env, adr, Some(Target(name, LoadNote(yaml, text).value)));
               && action.written.Some?
               && RawBody(WriteNote(yaml, action.written.value)) == "a\nb"
  {
    var note := Note(fm, "a\rb");
    var text := WriteNote(yaml, note);
    assert Universal("a\rb") == "a\nb" by {
      assert "a\rb"[1..] == "\rb" && "\rb"[1..] == "b" && "b"[1..] == "";
    }
    hide LoadNote, RawBody, WriteNote, Synced, UpToDate, Conflicts, Lawful;
    WrittenReadsBack(yaml, note);
    WrittenRawBody(yaml, note);
    var target := Some(Target(name, LoadNote(yaml, text).value));
    WrittenBody(env, adr, target);
    WrittenRawBody(yaml, Planned(env, adr, target).written.value);
  }

  // The aliases of any note after a run: a new note has its own, every other note
  // keeps what it had.
  ghost predicate AliasLeft(run: Run, n: string, id: string)
    requires |run.actions| == |run.adrs|
  {
    var k := LastWrite(run.actions, n);
    if k.Some? && run.actions[k.value].kind == Create then FourDigits(id) && id == AdrId(run.adrs[k.value])
    else Aliased(run.yaml, run.vault, n, id)
  }

  lemma ReadAliases(note: Note, id: string)
    ensures HasAlias(AsRead(note), id) == HasAlias(note, id)
  {
  }

  lemma AliasedAfter(run: Run, n: string, id: string)
    requires run.Valid() && |run.actions| == |run.adrs|
    ensures Aliased(run.yaml, run.Result(), n, id) <==> AliasLeft(run, n, id)
  {
    hide LoadNote, HasAlias, AsRead, Planned, FourDigits, Holds, Run.Valid, Run.TargetOf, Run.Result;
    NoteAfter(run, n);
    var k := LastWrite(run.actions, n);
    if k.Some? {
      RunActions(run, k.value);
      ReadAliases(run.actions[k.value].written.value, id);
      AliasesStay(run.env, run.adrs[k.value], run.TargetOf(k.value), id);
    }
  }

  // An ADR is planned as new by the next run exactly when the run has left no note
  // with its alias.
  lemma CreatedAgainExactly(run: Run, env': Env, names': seq<string>, again: seq<Action>, i: nat)
    requires run.Valid() && i < |run.adrs| && |run.actions| == |run.adrs|
    requires Listing(run.less, names', run.Result())
    requires Plans(env', run.yaml, run.adrs, run.Result(), names', again)
    ensures again[i].kind == Create <==> forall n :: !AliasLeft(run, n, AdrId(run.adrs[i]))
  {
    hide HasAlias, AsRead, FourDigits, Listing, Planned, LoadNote, Applied, Aliased, Lawful, AliasLeft, TotalOrder;
    var id := AdrId(run.adrs[i]);
    var t := Holder(run.yaml, run.Result(), names', id);
    PlannedShape(env', run.adrs[i], t);
    HolderIsGreatest(run.yaml, run.Result(), run.less, names', id);
    HolderIsLoaded(run.yaml, run.Result(), names', id);
    forall n
      ensures Aliased(run.yaml, run.Result(), n, id) <==> AliasLeft(run, n, id)
    {
      AliasedAfter(run, n, id);
    }
  }

  // No other ADR has the id.
  ghost predicate OwnId(run: Run, i: nat)
    requires i < |run.adrs|
  {
    forall j :: 0 <= j < |run.adrs| && j != i ==> AdrId(run.adrs[j]) != AdrId(run.adrs[i])
  }

  // A note just created is found by the next run exactly when its id is indexed
  // and no later action has taken its name.
  lemma CreatedIsFoundExactly(run: Run, env': Env, names': seq<string>, again: seq<Action>, i: nat)
    requires run.Valid() && i < |run.adrs| && |run.actions| == |run.adrs|
    requires run.actions[i].kind == Create && OwnId(run, i)
    requires Listing(run.less, names', run.Result())
    requires Plans(env', run.yaml, run.adrs, run.Result(), names', again)
    ensures again[i].kind == Create
            <==> !FourDigits(AdrId(run.adrs[i])) || LastWrite(run.actions, run.actions[i].name) != Some(i)
  {
    hide HasAlias, FourDigits, Listing, Planned, LoadNote, Run.Valid, Run.Result, Aliased, Run.TargetOf;
    RunActions(run, i);
    CreatedAgainExactly(run, env', names', again, i);
    var id, own := AdrId(run.adrs[i]), run.actions[i].name;
    forall n
      ensures AliasLeft(run, n, id) <==> FourDigits(id) && n == own && LastWrite(run.actions, n) == Some(i)
    {
    }
  }

  // A new note that takes the name of a note of the vault takes its ADR's place:
  // when no other note had the alias, that ADR is planned as new.
  lemma ReplacedIsCreatedAgain(run: Run, env': Env, names': seq<string>, again: seq<Action>, i: nat, k: nat)
    requires run.Valid() && i < |run.adrs| && k < |run.adrs| && |run.actions| == |run.adrs|
    requires run.actions[k].kind == Create && AdrId(run.adrs[k]) != AdrId(run.adrs[i]) && OwnId(run, i)
    requires run.actions[i].kind != Create && LastWrite(run.actions, run.actions[i].name) == Some(k)
    requires Listing(run.less, names', run.Result())
    requires Plans(env', run.yaml, run.adrs, run.Result(), names', again)
    ensures again[i].kind == Create <==>
              forall n :: n != run.actions[i].name ==> !AliasLeft(run, n, AdrId(run.adrs[i]))
  {
    hide HasAlias, FourDigits, Listing, Planned, LoadNote, Run.Valid, Run.Result, Aliased;
    CreatedAgainExactly(run, env', names', again, i);
  }

  // --- settling ------------------------------------------------------------------------------

  // The ADR shares neither its id nor, in the end, its note: what is written last
  // under the name of its action, if anything, is its own.
  ghost predicate Undisturbed(run: Run, i: nat)
    requires i < |run.adrs| && i < |run.actions|
  {
    OwnId(run, i) && LastWrite(run.actions, run.actions[i].name) == if run.actions[i].written.Some? then Some(i) else None
  }

  lemma AliasLeftToOwn(run: Run, i: nat, n: string)
    requires run.Valid() && i < |run.adrs| && |run.actions| == |run.adrs| && OwnId(run, i)
    ensures var id, name, action := AdrId(run.adrs[i]), run.actions[i].name, run.actions[i];
            AliasLeft(run, n, id) ==> Aliased(run.yaml, run.vault, n, id) || (FourDigits(id) && action.kind == Create && n == name)
  {
    hide HasAlias, FourDigits, Aliased, Run.Valid;
  }

  lemma HoldsAfter(run: Run, i: nat)
    requires run.Valid() && i < |run.adrs| && |run.actions| == |run.adrs| && Undisturbed(run, i)
    requires FourDigits(AdrId(run.adrs[i]))
    ensures Holds(run.yaml, run.Result(), run.less, AdrId(run.adrs[i]), run.actions[i].name)
  {
    hide Run.Valid, LoadNote, HasAlias, Planned, After, FourDigits, Aliased, Run.TargetOf, Run.Result, AliasLeft;
    RunActions(run, i);
    var id, name := AdrId(run.adrs[i]), run.actions[i].name;
    forall n
      ensures Aliased(run.yaml, run.Result(), n, id) ==>
                Aliased(run.yaml, run.vault, n, id) || (run.actions[i].kind == Create && n == name)
    {
      AliasedAfter(run, n, id);
      AliasLeftToOwn(run, i, n);
    }
    AliasedAfter(run, name, id);
    OwnAliasLeft(run, i);
  }

  lemma OwnAliasLeft(run: Run, i: nat)
    requires run.Valid() && i < |run.adrs| && |run.actions| == |run.adrs| && Undisturbed(run, i)
    requires FourDigits(AdrId(run.adrs[i]))
    ensures AliasLeft(run, run.actions[i].name, AdrId(run.adrs[i]))
  {
    RunActions(run, i);
    hide LoadNote, HasAlias, Planned, FourDigits, Run.Valid, Run.TargetOf;
  }

  // After a run such an ADR with a four-digit id finds the note its action was about.
  lemma HolderAfter(run: Run, names': seq<string>, i: nat)
    requires run.Valid() && i < |run.adrs| && |run.actions| == |run.adrs| && Undisturbed(run, i)
    requires Listing(run.less, names', run.Result()) && FourDigits(AdrId(run.adrs[i]))
    ensures After(run.actions[i], run.TargetOf(i)).Some?
    ensures Holder(run.yaml, run.Result(), names', AdrId(run.adrs[i]))
            == Some(Target(run.actions[i].name, AsRead(After(run.actions[i], run.TargetOf(i)).value)))
  {
    var id, name := AdrId(run.adrs[i]), run.actions[i].name;
    hide LoadNote, Holder, HasAlias, Planned, Applied, Plans, Listing, FourDigits, Holds, Aliased, Lawful;
    RunActions(run, i);
    HoldsAfter(run, i);
    NoteAfter(run, name);
    if run.actions[i].written.None? {
      LoadedReadsAgain(run.yaml, run.vault[name]);
    }
    HoldsIsHolder(run.yaml, run.Result(), run.less, names', id, name);
  }

  // Planning again over what a run leaves finds nothing to do for such an ADR
  // exactly when its id is indexed and no field is filled with the empty string; in
  // every case it reports the same conflicts.
  lemma SyncSettlesExactly(run: Run, env': Env, names': seq<string>, again: seq<Action>, i: nat)
    requires run.Valid() && env'.hash == run.env.hash
    requires i < |run.adrs| && |run.actions| == |run.adrs| && Undisturbed(run, i)
    requires Listing(run.less, names', run.Result())
    requires Plans(env', run.yaml, run.adrs, run.Result(), names', again)
    ensures |again| == |run.adrs|
    ensures again[i].kind == Unchanged
            <==> FourDigits(AdrId(run.adrs[i])) && NothingToFillWith(run.adrs[i], run.TargetOf(i))
    ensures again[i].conflicts == run.actions[i].conflicts
  {
    var id, adr := AdrId(run.adrs[i]), run.adrs[i];
    RunActions(run, i);
    if FourDigits(id) {
      HolderAfter(run, names', i);
      hide LoadNote, Holder, Planned, After, NothingToFillWith, FourDigits, Listing, Lawful, TotalOrder, Run.TargetOf, Run.Result;
      var note := After(run.actions[i], run.TargetOf(i)).value;
      ReplanExactly(run.env, env', adr, run.TargetOf(i), run.actions[i].name, Universal(note.body));
    } else {
      NotIndexed(run.yaml, run.vault, run.names, id);
      NotIndexed(run.yaml, run.Result(), names', id);
      hide FourDigits, Listing, Lawful, TotalOrder, NewFrontMatter, NewBody, Run.Result, Holder;
    }
  }

  lemma {:induction false} NotIndexed(yaml: Yaml, vault: Vault, names: seq<string>, id: string)
    requires !FourDigits(id)
    ensures Holder(yaml, vault, names, id) == None
    decreases |names|
  {
    hide FourDigits, LoadNote;
    if names != [] {
      NotIndexed(yaml, vault, names[..|names| - 1], id);
    }
  }

  // What an action writes carries the stamp of its ADR.
  lemma WrittenIsStamped(env: Env, env': Env, adr: Adr, target: Option<Target>)
    requires env'.hash == env.hash && Planned(env, adr, target).written.Some?
    ensures Stamped(env', adr, Planned(env, adr, target).written.value.fm)
  {
    hide Synced, UpToDate, NewBody, NewFrontMatter, Conflicts;
    if target.Some? {
      SyncedIs(env, adr, target.value.note.fm, "adr_sync");
      assert SyncHash(env', adr) == SyncHash(env, adr);
    } else {
      NewBlocksAre(env, env', adr);
    }
  }

  // A disturbed ADR does not settle on its note: whoever writes it last leaves a
  // stamp of its own, unless the two hash the same.
  lemma TakenNoteNeverSettles(run: Run, env': Env, names': seq<string>, again: seq<Action>, i: nat, k: nat)
    requires run.Valid() && env'.hash == run.env.hash && i < |run.adrs| && k < |run.adrs| && |run.actions| == |run.adrs|
    requires LastWrite(run.actions, run.actions[i].name) == Some(k)
    requires SyncHash(run.env, run.adrs[k]) != SyncHash(run.env, run.adrs[i])
    requires Listing(run.less, names', run.Result())
    requires Plans(env', run.yaml, run.adrs, run.Result(), names', again)
    ensures again[i].kind == Unchanged ==> again[i].name != run.actions[i].name
  {
    hide LoadNote, Holder, HasAlias, Applied, Listing, FourDigits, Aliased, Lawful, TotalOrder, SyncHash, NewFrontMatter, NewBody, Synced, Conflicts;
    var id, name := AdrId(run.adrs[i]), run.actions[i].name;
    RunActions(run, k);
    NoteAfter(run, name);
    WrittenIsStamped(run.env, env', run.adrs[k], run.TargetOf(k));
    HolderIsLoaded(run.yaml, run.Result(), names', id);
    SameHash(run.env, env', run.adrs[i]);
    SameHash(run.env, env', run.adrs[k]);
  }

  lemma SameHash(env: Env, env': Env, adr: Adr)
    requires env'.hash == env.hash
    ensures SyncHash(env', adr) == SyncHash(env, adr)
  {
  }

  // Two ADRs that share a note are never both settled, whatever the runs before,
  // unless they hash the same: each run stamps the note with one of them.
  lemma SharedNoteNeverSettles(env: Env, yaml: Yaml, adrs: seq<Adr>, vault: Vault, names: seq<string>, actions: seq<Action>, i: nat, j: nat)
    requires Plans(env, yaml, adrs, vault, names, actions) && i < |adrs| && j < |adrs|
    requires Holder(yaml, vault, names, AdrId(adrs[i])) == Holder(yaml, vault, names, AdrId(adrs[j]))
    requires SyncHash(env, adrs[i]) != SyncHash(env, adrs[j])
    ensures actions[i].kind != Unchanged || actions[j].kind != Unchanged
  {
    hide Holder, SyncHash, Synced, NewFrontMatter, NewBody, Fills, Listed, HasKey, KeyOf;
  }
}
