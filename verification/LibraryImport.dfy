// Ordering and publishing one package: `_topo`, `load_plan`, `_pin` and
// `import_plan` in scripts/library_import.py.
module LibraryImport {
  import opened Basics
  import opened Digraph
  import opened LibraryPackages

  // The last entry of an identity wins.
  function ById(entries: seq<Entry>): map<Ident, Entry> {
    if entries == [] then map[]
    else
      var e := entries[|entries| - 1];
      ById(entries[..|entries| - 1])[e.id := e]
  }

  lemma {:induction false} ByIdLookup(entries: seq<Entry>)
    ensures ById(entries).Keys == Elems(Ids(entries))
    ensures forall i :: i in ById(entries) ==> ById(entries)[i] in entries && ById(entries)[i].id == i
  {
    if entries != [] {
      var n := |entries| - 1;
      ByIdLookup(entries[..n]);
      assert Ids(entries) == Ids(entries[..n]) + [entries[n].id];
      assert entries == entries[..n] + [entries[n]];
    }
  }

  lemma {:induction false} ByIdOfDistinct(entries: seq<Entry>, i: nat)
    requires i < |entries| && Distinct(Ids(entries))
    ensures entries[i].id in ById(entries) && ById(entries)[entries[i].id] == entries[i]
  {
    var n := |entries| - 1;
    if i < n {
      assert Ids(entries)[i] != Ids(entries)[n];
      assert Ids(entries[..n]) == Ids(entries)[..n];
      ByIdOfDistinct(entries[..n], i);
    }
  }

  // The dependencies that stay inside the list.
  function Inside(deps: seq<Ident>, ids: set<Ident>): seq<Ident> {
    if deps == [] then []
    else
      var rest := Inside(deps[..|deps| - 1], ids);
      if deps[|deps| - 1] in ids then rest + [deps[|deps| - 1]] else rest
  }

  lemma {:induction false} InsideMembers(deps: seq<Ident>, ids: set<Ident>, d: Ident)
    ensures d in Inside(deps, ids) <==> d in deps && d in ids
  {
    if deps != [] {
      InsideMembers(deps[..|deps| - 1], ids, d);
      assert deps == deps[..|deps| - 1] + [deps[|deps| - 1]];
    }
  }

  // The dependency graph of a list, as `_topo` sees it.
  function ListGraph(entries: seq<Entry>): Graph<Ident> {
    var byId := ById(entries);
    map i | i in byId :: Inside(byId[i].dependencies, byId.Keys)
  }

  // `trail`, `done` and `out` of the inner `visit`.
  class TopoSearch {
    const byId: map<Ident, Entry>
    var done: set<Ident>
    var out: seq<Entry>

    ghost const graph: Graph<Ident>
    ghost const entries: seq<Entry>
    // No entry of the list hides behind another of the same identity.
    ghost const distinct: bool

    ghost predicate Valid()
      reads this
    {
      && graph == (map i | i in byId :: Inside(byId[i].dependencies, byId.Keys))
      && (forall i :: i in byId ==> byId[i].id == i && byId[i] in entries)
      && (forall e :: e in out ==> e in entries)
      && done == Elems(Ids(out)) <= byId.Keys
      && Distinct(Ids(out))
      && (distinct ==> Sealed(graph, Ids(out)))
      && (distinct ==> forall e :: e in out ==> e.id in byId && byId[e.id] == e)
    }

    constructor (entries: seq<Entry>)
      ensures Valid() && byId == ById(entries) && out == []
      ensures this.entries == entries && distinct == Distinct(Ids(entries))
    {
      ByIdLookup(entries);
      var byId := ById(entries);
      this.byId, this.entries := byId, entries;
      distinct := Distinct(Ids(entries));
      graph := map i | i in byId :: Inside(byId[i].dependencies, byId.Keys);
      done, out := {}, [];
    }

    // `ok` is false when the program raises "dependency cycle".
    method Visit(entry: Entry, trail: seq<Ident>) returns (ok: bool)
      requires Valid() && entry in entries && entry.id in byId && Elems(trail) <= byId.Keys
      requires distinct ==> byId[entry.id] == entry && IsPath(graph, trail + [entry.id])
      modifies this
      ensures ok ==> Valid() && Prefix(old(out), out) && entry.id in done
      ensures ok ==> Elems(trail) * done <= old(done)
      ensures !ok && distinct ==> Cyclic(graph)
      decreases byId.Keys - Elems(trail)
    {
      var id := entry.id;
      if id in done {
        return true;
      }
      if id in trail {
        if distinct {
          CloseCycle(graph, trail, id);
        }
        return false;
      }
      var inner := trail + [id];
      assert Elems(inner) == Elems(trail) + {id};
      var i := 0;
      while i < |entry.dependencies|
        invariant 0 <= i <= |entry.dependencies|
        invariant Valid() && Prefix(old(out), out) && Elems(inner) * done <= old(done)
        invariant forall j :: 0 <= j < i && entry.dependencies[j] in byId ==> entry.dependencies[j] in done
      {
        var d := entry.dependencies[i];
        if d in byId {
          if distinct {
            InsideMembers(entry.dependencies, byId.Keys, d);
            ExtendPath(graph, inner, d);
          }
          ok := Visit(byId[d], inner);
          if !ok {
            return;
          }
        }
        i := i + 1;
      }
      assert id in Elems(inner);
      if distinct {
        forall d | d in Succ(graph, id)
          ensures d in Ids(out)
        {
          InsideMembers(entry.dependencies, byId.Keys, d);
        }
        SealAppend(graph, Ids(out), id);
      }
      assert Ids(out + [entry]) == Ids(out) + [id];
      done := done + {id};
      out := out + [entry];
      return true;
    }
  }

  // --- the ordered list ----------------------------------------------------

  ghost predicate DependenciesFirst(out: seq<Entry>) {
    forall i, d :: 0 <= i < |out| && d in out[i].dependencies && d in Ids(out) ==> d in Ids(out[..i])
  }

  ghost predicate Permutation<T>(s: seq<T>, t: seq<T>) {
    multiset(s) == multiset(t)
  }

  lemma {:induction false} DistinctCount<T>(s: seq<T>, x: T)
    requires Distinct(s)
    ensures multiset(s)[x] == if x in s then 1 else 0
  {
    if s != [] {
      var n := |s| - 1;
      DistinctCount(s[..n], x);
      assert s == s[..n] + [s[n]];
      assert multiset(s) == multiset(s[..n]) + multiset{s[n]};
    }
  }

  lemma SameMembersPermute(entries: seq<Entry>, out: seq<Entry>)
    requires Distinct(Ids(entries)) && Distinct(Ids(out))
    requires Elems(Ids(out)) == Elems(Ids(entries))
    requires forall e :: e in out ==> e in entries
    ensures Permutation(out, entries)
  {
    forall x
      ensures multiset(out)[x] == multiset(entries)[x]
    {
      DistinctCount(out, x);
      DistinctCount(entries, x);
      if x in entries {
        var i :| 0 <= i < |entries| && entries[i] == x;
        assert Ids(entries)[i] in Elems(Ids(out));
        var j :| 0 <= j < |out| && Ids(out)[j] == x.id;
        assert out[j] in entries;
        var k :| 0 <= k < |entries| && entries[k] == out[j];
        assert Ids(entries)[k] == Ids(entries)[i];
      }
    }
  }

  lemma SealedPutsDependenciesFirst(entries: seq<Entry>, out: seq<Entry>)
    requires Sealed(ListGraph(entries), Ids(out))
    requires Elems(Ids(out)) == ById(entries).Keys
    requires forall e :: e in out ==> e.id in ById(entries) && ById(entries)[e.id] == e
    ensures DependenciesFirst(out)
  {
    forall i, d | 0 <= i < |out| && d in out[i].dependencies && d in Ids(out)
      ensures d in Ids(out[..i])
    {
      assert out[i] in out && d in Elems(Ids(out));
      InsideMembers(out[i].dependencies, ById(entries).Keys, d);
      assert d in Succ(ListGraph(entries), Ids(out)[i]);
      assert Ids(out[..i]) == Ids(out)[..i];
    }
  }

  // A search that has settled every identity has the list in order.
  lemma SettledListIsOrdered(entries: seq<Entry>, out: seq<Entry>)
    requires Distinct(Ids(entries)) && Distinct(Ids(out))
    requires Sealed(ListGraph(entries), Ids(out))
    requires Elems(Ids(out)) == ById(entries).Keys
    requires forall e :: e in out ==> e.id in ById(entries) && ById(entries)[e.id] == e
    ensures !Cyclic(ListGraph(entries))
    ensures Permutation(out, entries) && DependenciesFirst(out)
  {
    ByIdLookup(entries);
    SealedAcyclic(ListGraph(entries), Ids(out));
    SealedPutsDependenciesFirst(entries, out);
    SameMembersPermute(entries, out);
  }

  method SearchEntries(entries: seq<Entry>, search: TopoSearch) returns (ok: bool)
    requires search.Valid() && search.out == [] && search.byId == ById(entries)
    requires search.entries == entries && search.distinct == Distinct(Ids(entries))
    modifies search
    ensures ok ==> search.Valid() && search.done == search.byId.Keys
    ensures !ok && search.distinct ==> Cyclic(search.graph)
  {
    hide Sealed, Cyclic, Distinct, Prefix;
    ByIdLookup(entries);
    for i := 0 to |entries|
      invariant search.Valid()
      invariant forall j :: 0 <= j < i ==> entries[j].id in search.done
    {
      assert Ids(entries)[i] in Elems(Ids(entries));
      if search.distinct {
        ByIdOfDistinct(entries, i);
      }
      ok := search.Visit(entries[i], []);
      if !ok {
        return;
      }
    }
    forall i | i in search.byId
      ensures i in search.done
    {
      var j :| 0 <= j < |entries| && Ids(entries)[j] == i;
      assert entries[j].id in search.done;
    }
    return true;
  }

  method Topo(entries: seq<Entry>) returns (ordered: Option<seq<Entry>>)
    ensures Distinct(Ids(entries)) ==> (ordered.None? <==> Cyclic(ListGraph(entries)))
    ensures Distinct(Ids(entries)) && ordered.Some? ==>
              Permutation(ordered.value, entries) && DependenciesFirst(ordered.value)
    ensures ordered.Some? ==>
              Distinct(Ids(ordered.value)) && Elems(Ids(ordered.value)) == Elems(Ids(entries))
    ensures ordered.Some? ==> forall e :: e in ordered.value ==> e in entries
  {
    ByIdLookup(entries);
    var search := new TopoSearch(entries);
    var ok := SearchEntries(entries, search);
    if !ok {
      return None;
    }
    if Distinct(Ids(entries)) {
      SettledListIsOrdered(entries, search.out);
    }
    return Some(search.out);
  }

  // --- plan and import -----------------------------------------------------

  // A publish name: manifest kinds are shortened, keys kept.
  type Name = Ident

  datatype Item = Item(name: Name, pins: seq<Name>)

  datatype PinSource = FromRun(version: nat) | FromServer(version: nat)

  datatype PublishResult = PublishResult(item: Item, pins: seq<PinSource>, version: nat)

  datatype PlanError = DependencyCycle | Rejected(id: Ident)

  function Alias(id: Ident): Name {
    if id.kind == "agent_definition" then Ident("agent", id.key) else id
  }

  // No manifest kind is itself called "agent", so shortening merges nothing.
  lemma AliasInjective(a: Ident, b: Ident)
    requires a.kind in KINDS && b.kind in KINDS && Alias(a) == Alias(b)
    ensures a == b
  {
  }

  function ToItem(e: Entry): Item {
    Item(Alias(e.id), seq(|e.dependencies|, i requires 0 <= i < |e.dependencies| => Alias(e.dependencies[i])))
  }

  function Ready(entries: seq<Entry>): seq<Entry> {
    if entries == [] then []
    else
      var rest := Ready(entries[..|entries| - 1]);
      if entries[|entries| - 1].ready then rest + [entries[|entries| - 1]] else rest
  }

  // Exactly the entries whose status is "ready", each as often as it is listed.
  lemma {:induction false} ReadyExactly(entries: seq<Entry>, e: Entry)
    ensures multiset(Ready(entries))[e] == if e.ready then multiset(entries)[e] else 0
  {
    if entries != [] {
      var n := |entries| - 1;
      ReadyExactly(entries[..n], e);
      assert entries == entries[..n] + [entries[n]];
    }
  }

  // Agents are published under a shorter kind, everything else under its own.
  lemma AliasExactly(id: Ident)
    ensures Alias(id).key == id.key
    ensures Alias(id).kind == if id.kind == "agent_definition" then "agent" else id.kind
  {
  }

  // Of entries with one identity the last counts.
  lemma {:induction false} ByIdHoldsTheLast(entries: seq<Entry>, i: nat)
    requires i < |entries| && forall j :: i < j < |entries| ==> entries[j].id != entries[i].id
    ensures entries[i].id in ById(entries) && ById(entries)[entries[i].id] == entries[i]
  {
    var n := |entries| - 1;
    if i < n {
      ByIdHoldsTheLast(entries[..n], i);
    }
  }

  // The list of items of an ordered list of entries.
  ghost predicate PlanOf(items: seq<Item>, ordered: seq<Entry>) {
    |items| == |ordered| && forall i :: 0 <= i < |items| ==> items[i] == ToItem(ordered[i])
  }

  predicate Fits(admissible: Entry -> bool, e: Entry) {
    admissible(e) && e.id.kind in KINDS
  }

  // The first entry that does not fit.
  ghost predicate FirstUnfit(admissible: Entry -> bool, ordered: seq<Entry>, id: Ident) {
    exists i :: 0 <= i < |ordered| && ordered[i].id == id && !Fits(admissible, ordered[i])
                && forall k :: 0 <= k < i ==> Fits(admissible, ordered[k])
  }

  // `admissible` stands for the scope, hash and content tests of an entry.
  method LoadPlan(entries: seq<Entry>, admissible: Entry -> bool)
    returns (plan: Result<seq<Item>, PlanError>, ghost ordered: seq<Entry>)
    ensures Distinct(Ids(Ready(entries))) ==>
              (plan == Fail(DependencyCycle) <==> Cyclic(ListGraph(Ready(entries))))
    ensures Distinct(Ids(Ready(entries))) ==>
              (plan.Ok? <==> !Cyclic(ListGraph(Ready(entries))) && forall e :: e in Ready(entries) ==> Fits(admissible, e))
    ensures Distinct(Ids(Ready(entries))) && plan != Fail(DependencyCycle) ==>
              Permutation(ordered, Ready(entries)) && DependenciesFirst(ordered)
    ensures forall e :: e in ordered ==> e in Ready(entries)
    ensures plan.Fail? && plan.error.Rejected? ==> FirstUnfit(admissible, ordered, plan.error.id)
    ensures plan.Ok? ==> PlanOf(plan.value, ordered) && forall e :: e in ordered ==> Fits(admissible, e)
  {
    ordered := [];
    var sorted := Topo(Ready(entries));
    if sorted.None? {
      return Fail(DependencyCycle), ordered;
    }
    ordered := sorted.value;
    if Distinct(Ids(Ready(entries))) {
      PermutedMembers(ordered, Ready(entries));
    }
    hide Cyclic, ListGraph, Permutation, DependenciesFirst, Ready, Ids;
    var items: seq<Item> := [];
    for i := 0 to |sorted.value|
      invariant PlanOf(items, sorted.value[..i])
      invariant forall k :: 0 <= k < i ==> Fits(admissible, sorted.value[k])
    {
      var e := sorted.value[i];
      if !admissible(e) || e.id.kind !in KINDS {
        assert e in ordered;
        return Fail(Rejected(e.id)), ordered;
      }
      items := items + [ToItem(e)];
    }
    assert sorted.value[..|sorted.value|] == sorted.value;
    return Ok(items), ordered;
  }

  lemma PermutedMembers<T>(s: seq<T>, t: seq<T>)
    requires Permutation(s, t)
    ensures forall x :: x in s <==> x in t
  {
    assert forall x :: x in s <==> multiset(s)[x] > 0;
    assert forall x :: x in t <==> multiset(t)[x] > 0;
  }

  // The `published` map after some results.
  function Published(results: seq<PublishResult>): map<Name, nat> {
    if results == [] then map[]
    else
      var r := results[|results| - 1];
      Published(results[..|results| - 1])[r.item.name := r.version]
  }

  lemma {:induction false} PublishedNames(results: seq<PublishResult>, n: Name)
    ensures n in Published(results) <==> exists m :: 0 <= m < |results| && results[m].item.name == n
    ensures n in Published(results) ==>
              exists m :: 0 <= m < |results| && results[m].item.name == n && results[m].version == Published(results)[n]
  {
    if results != [] {
      PublishedNames(results[..|results| - 1], n);
      assert results[|results| - 1].item.name in Published(results);
    }
  }

  // Pins of one item: this run's version first, else the server's active one.
  ghost predicate PinsOf(item: Item, published: map<Name, nat>, lookup: Name -> Option<nat>, pins: seq<PinSource>) {
    && |pins| == |item.pins|
    && forall j :: 0 <= j < |pins| ==>
         var n := item.pins[j];
         if n in published then pins[j] == FromRun(published[n])
         else lookup(n).Some? && pins[j] == FromServer(lookup(n).value)
  }

  method Pins(item: Item, published: map<Name, nat>, lookup: Name -> Option<nat>)
    returns (pins: seq<PinSource>, ok: bool)
    ensures ok ==> PinsOf(item, published, lookup, pins)
    ensures !ok ==> exists n :: n in item.pins && n !in published && lookup(n).None?
  {
    pins := [];
    for j := 0 to |item.pins|
      invariant PinsOf(Item(item.name, item.pins[..j]), published, lookup, pins)
    {
      var n := item.pins[j];
      if n in published {
        pins := pins + [FromRun(published[n])];
      } else {
        var found := lookup(n);
        if found.None? {
          return pins, false;
        }
        pins := pins + [FromServer(found.value)];
      }
    }
    assert item.pins[..|item.pins|] == item.pins;
    ok := true;
  }

  // The two failures at which an import stops: a pin found nowhere, or a call that raises.
  ghost predicate Stops(
    item: Item, published: map<Name, nat>, lookup: Name -> Option<nat>, publish: (Item, seq<PinSource>) -> Option<nat>)
  {
    || (exists n :: n in item.pins && n !in published && lookup(n).None?)
    || (exists pins :: PinsOf(item, published, lookup, pins) && publish(item, pins).None?)
  }

  // `publish` answers the stored version, or None when the call raises.
  method ImportPlan(
    items: seq<Item>, dryRun: bool, lookup: Name -> Option<nat>, publish: (Item, seq<PinSource>) -> Option<nat>)
    returns (results: seq<PublishResult>)
    ensures |results| <= |items|
    ensures forall i :: 0 <= i < |results| ==>
              && results[i].item == items[i]
              && PinsOf(items[i], if dryRun then map[] else Published(results[..i]), lookup, results[i].pins)
              && publish(items[i], results[i].pins) == Some(results[i].version)
    ensures |results| < |items| ==>
              Stops(items[|results|], if dryRun then map[] else Published(results), lookup, publish)
  {
    results := [];
    var published: map<Name, nat> := map[];
    for i := 0 to |items|
      invariant |results| == i
      invariant published == if dryRun then map[] else Published(results)
      invariant forall k :: 0 <= k < i ==>
                && results[k].item == items[k]
                && PinsOf(items[k], if dryRun then map[] else Published(results[..k]), lookup, results[k].pins)
                && publish(items[k], results[k].pins) == Some(results[k].version)
    {
      var pins, ok := Pins(items[i], published, lookup);
      if !ok {
        return;
      }
      var version := publish(items[i], pins);
      if version.None? {
        return;
      }
      ghost var before := results;
      results := results + [PublishResult(items[i], pins, version.value)];
      assert results[..i] == before;
      assert forall k :: 0 <= k < i ==> results[..k] == before[..k];
      if !dryRun {
        published := published[items[i].name := version.value];
      }
    }
  }

  // In a real run over a loaded plan, what an entry depends on in its own package
  // is published before its turn comes, also at the entry at which the run stops.
  lemma {:induction false} InLayerPinsArePublished(ordered: seq<Entry>, items: seq<Item>, results: seq<PublishResult>, i: nat, d: Ident)
    requires PlanOf(items, ordered) && DependenciesFirst(ordered)
    requires i < |items| && i <= |results| && forall k :: 0 <= k < i ==> results[k].item == items[k]
    requires d in ordered[i].dependencies && d in Ids(ordered)
    ensures Alias(d) in Published(results[..i])
  {
    assert d in Ids(ordered[..i]);
    var m :| 0 <= m < i && ordered[m].id == d;
    assert results[..i][m].item.name == Alias(d);
    PublishedNames(results[..i], Alias(d));
  }

  // So the pin that stops a run is on something outside the package.
  lemma {:induction false} MissingPinIsOutside(
    ordered: seq<Entry>, items: seq<Item>, results: seq<PublishResult>, n: Name)
    requires PlanOf(items, ordered) && DependenciesFirst(ordered) && |results| < |items|
    requires forall k :: 0 <= k < |results| ==> results[k].item == items[k]
    requires n in items[|results|].pins && n !in Published(results)
    ensures exists d :: d in ordered[|results|].dependencies && Alias(d) == n && d !in Ids(ordered)
  {
    var i := |results|;
    assert results[..i] == results;
    var j :| 0 <= j < |items[i].pins| && items[i].pins[j] == n;
    var d := ordered[i].dependencies[j];
    assert Alias(d) == n;
    if d in Ids(ordered) {
      InLayerPinsArePublished(ordered, items, results, i, d);
    }
  }

  // Entries of one package that go by one name are one entry.
  lemma {:induction false} SameName(ordered: seq<Entry>, items: seq<Item>, m: nat, w: nat)
    requires PlanOf(items, ordered) && Distinct(Ids(ordered)) && forall e :: e in ordered ==> e.id.kind in KINDS
    requires m < |items| && w < |items| && items[m].name == items[w].name
    ensures m == w
  {
    hide Alias;
    AliasInjective(ordered[w].id, ordered[m].id);
    assert Ids(ordered)[w] == Ids(ordered)[m];
  }

  lemma {:induction false} PublishedIs(ordered: seq<Entry>, items: seq<Item>, results: seq<PublishResult>, m: nat)
    requires PlanOf(items, ordered) && Distinct(Ids(ordered)) && forall e :: e in ordered ==> e.id.kind in KINDS
    requires m < |results| <= |items| && forall k :: 0 <= k < |results| ==> results[k].item == items[k]
    ensures items[m].name in Published(results) && Published(results)[items[m].name] == results[m].version
  {
    hide PlanOf, Distinct, Published, Ids;
    var n := items[m].name;
    assert results[m].item.name == n;
    PublishedNames(results, n);
    var w :| 0 <= w < |results| && results[w].item.name == n && results[w].version == Published(results)[n];
    SameName(ordered, items, m, w);
  }

  // In a real run over a loaded plan, every pin on an entry of the same package
  // is the version that this very run published for that entry.
  lemma {:induction false} InLayerPinsComeFromTheRun(
    ordered: seq<Entry>, items: seq<Item>, results: seq<PublishResult>, lookup: Name -> Option<nat>, i: nat, j: nat)
    requires PlanOf(items, ordered) && DependenciesFirst(ordered) && Distinct(Ids(ordered))
    requires forall e :: e in ordered ==> e.id.kind in KINDS
    requires i < |results| <= |items|
    requires forall k :: 0 <= k < |results| ==>
               results[k].item == items[k] && PinsOf(items[k], Published(results[..k]), lookup, results[k].pins)
    requires j < |ordered[i].dependencies| && ordered[i].dependencies[j] in Ids(ordered)
    ensures exists m :: 0 <= m < i && ordered[m].id == ordered[i].dependencies[j]
                        && j < |results[i].pins| && results[i].pins[j] == FromRun(results[m].version)
  {
    var d := ordered[i].dependencies[j];
    assert d in Ids(ordered[..i]);
    var m :| 0 <= m < i && ordered[m].id == d;
    hide DependenciesFirst, Published, Alias, Distinct;
    PublishedIs(ordered, items, results[..i], m);
    assert items[i].pins[j] == Alias(d) == items[m].name;
  }
}
