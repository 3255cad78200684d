// What the verdict of the package check promises to the importer: whether a
// package that scripts/library_packages.py accepts can be ordered by
// scripts/library_import.py.
module LibraryComposition {
  import opened Basics
  import opened Digraph
  import opened LibraryPackages
  import opened LibraryImport

  // No key can be resolved in two layers that a layer may depend on.
  ghost predicate Unambiguous(ms: Manifests) {
    forall layer, k, x, y ::
      x in AllowedDeps(layer) && y in AllowedDeps(layer) && k in ms.Available(x) && k in ms.Available(y) ==> x == y
  }

  // Validate has nothing to report.
  ghost predicate CleanReport(ms: Manifests, scan: ScanOrder)
    requires ValidScan(scan)
  {
    && (forall err: PackageError :: !Reported(ms, err))
    && !Cyclic(PackageGraph(ms, scan))
  }

  ghost predicate DistinctKeys(ms: Manifests) {
    forall layer :: Distinct(Ids(ms.Of(layer)))
  }

  // --- the edges of the package graph --------------------------------------

  lemma {:induction false} LayerNodes(
    ms: Manifests, scan: ScanOrder, layer: Layer, entries: seq<Entry>, g: Graph<Node>, n: Node)
    requires layer in scan && Distinct(Ids(entries))
    ensures n.0 != layer ==> Succ(AddLayer(ms, scan, layer, entries, g), n) == Succ(g, n)
    ensures n.0 == layer && n.1 !in Ids(entries) ==> Succ(AddLayer(ms, scan, layer, entries, g), n) == Succ(g, n)
    ensures forall e :: e in entries && n == (layer, e.id) ==>
              Succ(AddLayer(ms, scan, layer, entries, g), n) == Edges(ms, scan[layer], e.dependencies)
  {
    if entries != [] {
      var k := |entries| - 1;
      assert Ids(entries) == Ids(entries[..k]) + [entries[k].id];
      assert Ids(entries)[k] == entries[k].id;
      LayerNodes(ms, scan, layer, entries[..k], g, n);
      forall e | e in entries && n == (layer, e.id)
        ensures Succ(AddLayer(ms, scan, layer, entries, g), n) == Edges(ms, scan[layer], e.dependencies)
      {
        var i :| 0 <= i < |entries| && entries[i] == e;
        assert Ids(entries)[i] == e.id;
      }
    }
  }

  lemma EntryIds(entries: seq<Entry>)
    ensures forall e :: e in entries ==> e.id in Ids(entries)
  {
    forall e | e in entries
      ensures e.id in Ids(entries)
    {
      var i :| 0 <= i < |entries| && entries[i] == e;
      assert Ids(entries)[i] == e.id;
    }
  }

  lemma PackageEdge(ms: Manifests, scan: ScanOrder, n: Node, m: Node)
    requires ValidScan(scan) && DistinctKeys(ms)
    ensures m in Succ(PackageGraph(ms, scan), n) <==>
            exists e :: e in ms.Of(n.0) && e.id == n.1 && m in Edges(ms, scan[n.0], e.dependencies)
  {
    hide Edges, AddLayer;
    var g0: Graph<Node> := map[];
    var g1 := AddLayer(ms, scan, Core, ms.core, g0);
    var g2 := AddLayer(ms, scan, Project, ms.project, g1);
    assert Distinct(Ids(ms.Of(Core))) && Distinct(Ids(ms.Of(Project))) && Distinct(Ids(ms.Of(Personal)));
    LayerNodes(ms, scan, Core, ms.core, g0, n);
    LayerNodes(ms, scan, Project, ms.project, g1, n);
    LayerNodes(ms, scan, Personal, ms.personal, g2, n);
    var entries := ms.Of(n.0);
    EntryIds(entries);
    if n.1 in Ids(entries) {
      var i :| 0 <= i < |entries| && Ids(entries)[i] == n.1;
      assert entries[i] in entries;
    }
  }

  // --- an accepted package can be ordered ----------------------------------

  lemma {:induction false} ReadyMembers(entries: seq<Entry>)
    ensures forall e :: e in Ready(entries) <==> e in entries && e.ready
    ensures Distinct(Ids(entries)) ==> Distinct(Ids(Ready(entries)))
  {
    if entries != [] {
      var k := |entries| - 1;
      var head := entries[..k];
      ReadyMembers(head);
      assert entries == head + [entries[k]];
      assert Ids(entries) == Ids(head) + [entries[k].id];
      if Distinct(Ids(entries)) {
        assert Distinct(Ids(head)) by {
          assert Ids(head) == Ids(entries)[..k];
        }
        forall i | 0 <= i < |Ready(head)|
          ensures Ids(Ready(head))[i] != entries[k].id
        {
          assert Ready(head)[i] in head;
          var j :| 0 <= j < k && head[j] == Ready(head)[i];
          assert Ids(entries)[j] != Ids(entries)[k];
        }
      }
    }
  }

  function Lift(layer: Layer, p: seq<Ident>): seq<Node> {
    seq(|p|, i requires 0 <= i < |p| => (layer, p[i]))
  }

  lemma EdgeLifts(ms: Manifests, scan: ScanOrder, layer: Layer, a: Ident, b: Ident)
    requires ValidScan(scan) && DistinctKeys(ms) && Unambiguous(ms)
    requires b in Succ(ListGraph(Ready(ms.Of(layer))), a)
    ensures (layer, b) in Succ(PackageGraph(ms, scan), (layer, a))
  {
    var entries := ms.Of(layer);
    var ready := Ready(entries);
    ReadyMembers(entries);
    ByIdLookup(ready);
    var e := ById(ready)[a];
    InsideMembers(e.dependencies, ById(ready).Keys, b);
    var target := ById(ready)[b];
    assert target in entries && b in ms.Available(layer);
    ScanVisitsAllowed(scan, layer);
    var owner := Owner(ms, scan[layer], b);
    assert layer in AllowedDeps(layer) && owner == Some(layer);
    EdgesAreOwners(ms, scan[layer], e.dependencies, (layer, b));
    PackageEdge(ms, scan, (layer, a), (layer, b));
  }

  lemma AcceptedPackageCanBeOrdered(ms: Manifests, scan: ScanOrder, layer: Layer)
    requires ValidScan(scan) && DistinctKeys(ms) && Unambiguous(ms)
    requires !Cyclic(PackageGraph(ms, scan))
    ensures !Cyclic(ListGraph(Ready(ms.Of(layer))))
  {
    var g := ListGraph(Ready(ms.Of(layer)));
    forall p | IsCycle(g, p)
      ensures false
    {
      var q := Lift(layer, p);
      forall i | 0 <= i < |q| - 1
        ensures q[i + 1] in Succ(PackageGraph(ms, scan), q[i])
      {
        EdgeLifts(ms, scan, layer, p[i], p[i + 1]);
      }
      assert IsCycle(PackageGraph(ms, scan), q);
    }
  }

  lemma CleanReportHasDistinctKeys(ms: Manifests, scan: ScanOrder)
    requires ValidScan(scan) && CleanReport(ms, scan)
    ensures DistinctKeys(ms)
  {
    forall layer, i, j | 0 <= i < j < |Ids(ms.Of(layer))|
      ensures Ids(ms.Of(layer))[i] != Ids(ms.Of(layer))[j]
    {
      var entries := ms.Of(layer);
      var err := DuplicateKey(layer, entries[j].id);
      assert !Reported(ms, err);
      assert Ids(entries)[..j][i] == Ids(entries)[i];
      assert !AtEntry(layer, entries, j, err);
    }
  }

  // --- an ambiguous key breaks the promise ---------------------------------

  ghost predicate SameKeys(ms: Manifests, other: Manifests) {
    forall layer :: Ids(ms.Of(layer)) == Ids(other.Of(layer))
  }

  // The same entries, with one that depends on itself and no other dependency.
  function Rewired(entries: seq<Entry>, self: set<Ident>): seq<Entry> {
    seq(|entries|, i requires 0 <= i < |entries| =>
      Entry(entries[i].id, if entries[i].id in self then [entries[i].id] else [], true, []))
  }

  function Trap(ms: Manifests, layer: Layer, k: Ident): Manifests {
    Manifests(
      Rewired(ms.core, if layer == Core then {k} else {}),
      Rewired(ms.project, if layer == Project then {k} else {}),
      Rewired(ms.personal, if layer == Personal then {k} else {}))
  }

  const CORE_FIRST: ScanOrder := map[Core := [Core], Project := [Core, Project], Personal := [Core, Personal]]

  lemma TrapKeepsKeys(ms: Manifests, layer: Layer, k: Ident)
    ensures SameKeys(ms, Trap(ms, layer, k))
  {
  }

  lemma TrapEntry(ms: Manifests, layer: Layer, k: Ident, l: Layer, e: Entry)
    requires e in Trap(ms, layer, k).Of(l)
    ensures e.ready && e.flaws == [] && e.id in ms.Available(l)
    ensures e.dependencies == if l == layer && e.id == k then [k] else []
  {
    var i :| 0 <= i < |ms.Of(l)| && Trap(ms, layer, k).Of(l)[i] == e;
    assert ms.Of(l)[i] in ms.Of(l) && ms.Of(l)[i].id == e.id;
  }

  lemma TrapEntryEdges(ms: Manifests, layer: Layer, k: Ident, l: Layer, e: Entry, m: Node)
    requires k in ms.Available(Core) && e in Trap(ms, layer, k).Of(l)
    requires m in Edges(Trap(ms, layer, k), CORE_FIRST[l], e.dependencies)
    ensures l == layer && e.id == k && m == (Core, k)
  {
    var trap := Trap(ms, layer, k);
    TrapKeepsKeys(ms, layer, k);
    SameKeysSameAvailability(ms, trap);
    EdgesAreOwners(trap, CORE_FIRST[l], e.dependencies, m);
    TrapEntry(ms, layer, k, l, e);
    CoreOwnsFirst(trap, l, k);
  }

  lemma TrapIsDistinct(ms: Manifests, layer: Layer, k: Ident)
    requires DistinctKeys(ms)
    ensures DistinctKeys(Trap(ms, layer, k))
  {
    hide Trap;
    TrapKeepsKeys(ms, layer, k);
  }

  lemma TrapEdges(ms: Manifests, layer: Layer, k: Ident, n: Node, m: Node)
    requires DistinctKeys(ms) && k in ms.Available(Core)
    requires m in Succ(PackageGraph(Trap(ms, layer, k), CORE_FIRST), n)
    ensures n == (layer, k) && m == (Core, k)
  {
    hide Trap, PackageGraph, Succ, Edges, DistinctKeys, Manifests.Available;
    var trap := Trap(ms, layer, k);
    TrapIsDistinct(ms, layer, k);
    PackageEdge(trap, CORE_FIRST, n, m);
    var e :| e in trap.Of(n.0) && e.id == n.1 && m in Edges(trap, CORE_FIRST[n.0], e.dependencies);
    TrapEntryEdges(ms, layer, k, n.0, e, m);
  }

  lemma CoreOwnsFirst(ms: Manifests, layer: Layer, k: Ident)
    requires k in ms.Available(Core)
    ensures Owner(ms, CORE_FIRST[layer], k) == Some(Core)
  {
    assert CORE_FIRST[layer][0] == Core;
  }

  lemma TrapPassesTheCheck(ms: Manifests, layer: Layer, k: Ident)
    requires DistinctKeys(ms) && layer != Core && k in ms.Available(Core)
    requires forall l, e :: e in ms.Of(l) ==> e.id.kind in KINDS
    ensures CleanReport(Trap(ms, layer, k), CORE_FIRST)
  {
    var trap := Trap(ms, layer, k);
    var g := PackageGraph(trap, CORE_FIRST);
    TrapKeepsKeys(ms, layer, k);
    forall p | IsPath(g, p) && |p| >= 2
      ensures p[0] != p[|p| - 1]
    {
      TrapEdges(ms, layer, k, p[0], p[1]);
      var i := |p| - 2;
      assert p[i + 1] in Succ(g, p[i]);
      TrapEdges(ms, layer, k, p[i], p[i + 1]);
    }
    forall err: PackageError
      ensures !Reported(trap, err)
    {
      TrapReportsNothing(ms, layer, k, err);
    }
  }

  lemma TrapReportsNothing(ms: Manifests, layer: Layer, k: Ident, err: PackageError)
    requires DistinctKeys(ms) && k in ms.Available(Core)
    requires forall l, e :: e in ms.Of(l) ==> e.id.kind in KINDS
    ensures !Reported(Trap(ms, layer, k), err)
  {
    var trap := Trap(ms, layer, k);
    TrapKeepsKeys(ms, layer, k);
    SameKeysSameAvailability(ms, trap);
    forall l, e, target | e in trap.Of(l)
      ensures !UnresolvedAt(trap, l, e, target)
    {
      TrapEntry(ms, layer, k, l, e);
      assert Core in AllowedDeps(l);
    }
    forall l, i: nat | i < |trap.Of(l)|
      ensures !AtEntry(l, trap.Of(l), i, err)
    {
      TrapEntry(ms, layer, k, l, trap.Of(l)[i]);
      assert Distinct(Ids(ms.Of(l))) && Ids(trap.Of(l)) == Ids(ms.Of(l));
    }
  }

  lemma TrapCannotBeOrdered(ms: Manifests, layer: Layer, k: Ident)
    requires k in ms.Available(layer)
    ensures Cyclic(ListGraph(Ready(Trap(ms, layer, k).Of(layer))))
  {
    var entries := Trap(ms, layer, k).Of(layer);
    var i :| 0 <= i < |ms.Of(layer)| && ms.Of(layer)[i].id == k;
    SelfDependencyIsACycle(entries, entries[i]);
  }

  lemma SelfDependencyIsACycle(entries: seq<Entry>, self: Entry)
    requires self in entries && self.ready
    requires forall e :: e in entries && e.id == self.id ==> e.dependencies == [e.id]
    ensures Cyclic(ListGraph(Ready(entries)))
  {
    var ready := Ready(entries);
    ReadyMembers(entries);
    ByIdLookup(ready);
    EntryIds(ready);
    var k := self.id;
    var e := ById(ready)[k];
    InsideMembers(e.dependencies, ById(ready).Keys, k);
    assert IsCycle(ListGraph(ready), [k, k]);
  }

  lemma SameKeysSameAvailability(ms: Manifests, other: Manifests)
    requires SameKeys(ms, other)
    ensures forall layer :: ms.Available(layer) == other.Available(layer)
  {
    forall layer
      ensures ms.Available(layer) == other.Available(layer)
    {
      assert ms.Available(layer) == Elems(Ids(ms.Of(layer)));
      assert other.Available(layer) == Elems(Ids(other.Of(layer)));
    }
  }

  ghost predicate AlwaysOrderable(ms: Manifests) {
    forall other, scan, layer :: SameKeys(ms, other) && ValidScan(scan) && CleanReport(other, scan) ==>
      !Cyclic(ListGraph(Ready(other.Of(layer))))
  }

  lemma UnambiguousSuffices(ms: Manifests)
    requires Unambiguous(ms)
    ensures AlwaysOrderable(ms)
  {
    forall other, scan, layer | SameKeys(ms, other) && ValidScan(scan) && CleanReport(other, scan)
      ensures !Cyclic(ListGraph(Ready(other.Of(layer))))
    {
      CleanReportHasDistinctKeys(other, scan);
      SameKeysSameAvailability(ms, other);
      AcceptedPackageCanBeOrdered(other, scan, layer);
    }
  }

  lemma AmbiguousKeyIsShared(ms: Manifests) returns (layer: Layer, k: Ident)
    requires !Unambiguous(ms)
    ensures layer != Core && k in ms.Available(Core) && k in ms.Available(layer)
  {
    var l, key, x, y :|
      x in AllowedDeps(l) && y in AllowedDeps(l) && key in ms.Available(x) && key in ms.Available(y) && x != y;
    layer, k := l, key;
  }

  // Over all ways to wire dependencies between given keys, acceptance by
  // `validate` guarantees that every layer can be ordered exactly when no key is
  // available in two layers that a layer may depend on.
  lemma CompositionHoldsExactlyWhenUnambiguous(ms: Manifests)
    requires DistinctKeys(ms) && forall l, e :: e in ms.Of(l) ==> e.id.kind in KINDS
    ensures AlwaysOrderable(ms) <==> Unambiguous(ms)
  {
    if Unambiguous(ms) {
      UnambiguousSuffices(ms);
    } else {
      var layer, k := AmbiguousKeyIsShared(ms);
      assert ValidScan(CORE_FIRST);
      TrapKeepsKeys(ms, layer, k);
      TrapPassesTheCheck(ms, layer, k);
      TrapCannotBeOrdered(ms, layer, k);
      hide Trap, SameKeys, ValidScan, CleanReport, ListGraph, Ready, Cyclic, DistinctKeys, Unambiguous, Manifests.Of, Manifests.Available;
      assert !AlwaysOrderable(ms);
    }
  }
}
