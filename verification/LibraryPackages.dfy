// Dependency resolution and cycle search over the three package manifests
// (`validate` in scripts/library_packages.py).
module LibraryPackages {
  import opened Basics
  import opened Digraph

  datatype Layer = Core | Project | Personal

  datatype Ident = Ident(kind: string, key: string)

  // `flaws` stands for the reports of the header, owner, version, file and hash
  // tests of an entry, which read the file system.
  datatype Entry = Entry(id: Ident, dependencies: seq<Ident>, ready: bool, flaws: seq<string>)

  type Node = (Layer, Ident)

  datatype PackageError =
    | Flaw(layer: Layer, id: Ident, text: string)
    | UnknownKind(layer: Layer, id: Ident)
    | DuplicateKey(layer: Layer, id: Ident)
    | Collision(id: Ident)
    | Unresolved(layer: Layer, id: Ident, target: Ident)
    | CycleVia(node: Node)

  const KINDS: set<string> := {"rule", "skill", "hook", "agent_definition", "model_profile", "workflow"}

  datatype Manifests = Manifests(core: seq<Entry>, project: seq<Entry>, personal: seq<Entry>) {
    function Of(layer: Layer): seq<Entry> {
      match layer
      case Core => core
      case Project => project
      case Personal => personal
    }

    function Available(layer: Layer): set<Ident> {
      set e | e in Of(layer) :: e.id
    }
  }

  function AllowedDeps(layer: Layer): set<Layer> {
    match layer
    case Core => {Core}
    case Project => {Core, Project}
    case Personal => {Core, Personal}
  }

  // The order in which the runtime happens to walk each ALLOWED_DEPS set.
  type ScanOrder = map<Layer, seq<Layer>>

  ghost predicate ValidScan(scan: ScanOrder) {
    && scan.Keys == {Core, Project, Personal}
    && scan[Core] == [Core]
    && scan[Project] in {[Core, Project], [Project, Core]}
    && scan[Personal] in {[Core, Personal], [Personal, Core]}
  }

  lemma ScanVisitsAllowed(scan: ScanOrder, layer: Layer)
    requires ValidScan(scan)
    ensures forall x :: x in scan[layer] <==> x in AllowedDeps(layer)
  {
  }

  function Owner(ms: Manifests, scan: seq<Layer>, target: Ident): (owner: Option<Layer>)
    ensures owner.Some? ==> owner.value in scan && target in ms.Available(owner.value)
    ensures owner.None? ==> forall x :: x in scan ==> target !in ms.Available(x)
  {
    if scan == [] then None
    else if target in ms.Available(scan[0]) then Some(scan[0])
    else Owner(ms, scan[1..], target)
  }

  // The edges one entry contributes.
  function Edges(ms: Manifests, scan: seq<Layer>, deps: seq<Ident>): seq<Node> {
    if deps == [] then []
    else
      var rest := Edges(ms, scan, deps[..|deps| - 1]);
      var target := deps[|deps| - 1];
      var owner := Owner(ms, scan, target);
      if owner.Some? then rest + [(owner.value, target)] else rest
  }

  lemma {:induction false} EdgesAreOwners(ms: Manifests, scan: seq<Layer>, deps: seq<Ident>, n: Node)
    ensures n in Edges(ms, scan, deps) <==> n.1 in deps && Owner(ms, scan, n.1) == Some(n.0)
  {
    if deps != [] {
      var k := |deps| - 1;
      EdgesAreOwners(ms, scan, deps[..k], n);
      assert deps == deps[..k] + [deps[k]];
    }
  }

  // A later entry of the same identity replaces an earlier one.
  function AddLayer(ms: Manifests, scan: ScanOrder, layer: Layer, entries: seq<Entry>, g: Graph<Node>): Graph<Node>
    requires layer in scan
  {
    if entries == [] then g
    else
      var e := entries[|entries| - 1];
      AddLayer(ms, scan, layer, entries[..|entries| - 1], g)
      [(layer, e.id) := Edges(ms, scan[layer], e.dependencies)]
  }

  function PackageGraph(ms: Manifests, scan: ScanOrder): Graph<Node>
    requires scan.Keys == {Core, Project, Personal}
  {
    var g := AddLayer(ms, scan, Core, ms.core, map[]);
    var g := AddLayer(ms, scan, Project, ms.project, g);
    AddLayer(ms, scan, Personal, ms.personal, g)
  }

  function Ids(entries: seq<Entry>): (ids: seq<Ident>)
    ensures |ids| == |entries| && forall i :: 0 <= i < |entries| ==> ids[i] == entries[i].id
  {
    seq(|entries|, i requires 0 <= i < |entries| => entries[i].id)
  }

  // Leads to a node met before: what `visit` found when it answers true.
  ghost predicate ClosedWalk<N>(g: Graph<N>, p: seq<N>) {
    IsPath(g, p) && p[|p| - 1] in p[..|p| - 1]
  }

  // The `visiting` and `done` sets of the inner `visit`.
  class CycleSearch {
    const graph: Graph<Node>
    var visiting: set<Node>
    var done: set<Node>
    ghost var order: seq<Node>

    ghost predicate Valid()
      reads this
    {
      Sealed(graph, order) && done == Elems(order)
    }

    constructor (graph: Graph<Node>)
      ensures Valid() && this.graph == graph && visiting == {}
    {
      this.graph := graph;
      visiting, done, order := {}, {}, [];
    }

    // The answer `true` unwinds every pending call, so `done` may hold nodes of
    // the cycle afterwards; the answer `false` leaves only settled nodes there.
    method Visit(node: Node, ghost trail: seq<Node>) returns (cyclic: bool, ghost walk: seq<Node>)
      requires Valid() && visiting == Elems(trail) && IsPath(graph, trail + [node])
      modifies this
      ensures !cyclic ==> Valid() && visiting == old(visiting)
      ensures !cyclic ==> node in done && old(done) <= done
      ensures cyclic ==> ClosedWalk(graph, walk) && Prefix(trail + [node], walk)
      decreases graph.Keys - visiting
    {
      hide IsPath;
      walk := trail + [node];
      if node in done {
        return false, walk;
      }
      if node in visiting {
        return true, walk;
      }
      visiting := visiting + {node};
      ghost var inner := trail + [node];
      assert visiting == Elems(inner);
      var next := Succ(graph, node);
      cyclic := false;
      var i := 0;
      while i < |next| && !cyclic
        invariant 0 <= i <= |next|
        invariant !cyclic ==> Valid() && visiting == Elems(inner) && old(done) <= done
        invariant !cyclic ==> forall j :: 0 <= j < i ==> next[j] in done
        invariant cyclic ==> ClosedWalk(graph, walk) && Prefix(inner, walk)
        decreases |next| - i
      {
        ExtendPath(graph, inner, next[i]);
        cyclic, walk := Visit(next[i], inner);
        i := i + 1;
      }
      if !cyclic {
        SealAppend(graph, order, node);
        order := order + [node];
      }
      visiting := visiting - {node};
      done := done + {node};
    }
  }

  method FindCycle(graph: Graph<Node>) returns (via: Option<Node>, ghost walk: seq<Node>)
    ensures via.Some? <==> Cyclic(graph)
    ensures via.Some? ==> via.value in graph && ClosedWalk(graph, walk) && walk[0] == via.value
  {
    var search := new CycleSearch(graph);
    var nodes := graph.Keys;
    walk := [];
    while nodes != {}
      invariant search.Valid() && search.graph == graph && search.visiting == {}
      invariant nodes <= graph.Keys && graph.Keys - nodes <= search.done
      decreases nodes
    {
      var node :| node in nodes;
      var cyclic;
      cyclic, walk := search.Visit(node, []);
      if cyclic {
        ghost var k := |walk| - 1;
        assert walk == walk[..k] + [walk[k]];
        CloseCycle(graph, walk[..k], walk[k]);
        return Some(node), walk;
      }
      nodes := nodes - {node};
    }
    SealedAcyclic(graph, search.order);
    via := None;
  }

  // --- the report ----------------------------------------------------------

  ghost predicate AtEntry(layer: Layer, entries: seq<Entry>, i: nat, err: PackageError)
    requires i < |entries|
  {
    var e := entries[i];
    match err
    case Flaw(l, id, text) => l == layer && id == e.id && text in e.flaws
    case UnknownKind(l, id) => l == layer && id == e.id && id.kind !in KINDS
    case DuplicateKey(l, id) => l == layer && id == e.id && id in Ids(entries)[..i]
    case _ => false
  }

  ghost predicate Structural(layer: Layer, entries: seq<Entry>, n: nat, err: PackageError)
    requires n <= |entries|
  {
    exists i: nat :: i < n && AtEntry(layer, entries, i, err)
  }

  method CheckEntries(layer: Layer, entries: seq<Entry>) returns (errors: seq<PackageError>)
    ensures forall err :: err in errors <==> Structural(layer, entries, |entries|, err)
  {
    errors := [];
    var seen: set<Ident> := {};
    for n := 0 to |entries|
      invariant seen == Elems(Ids(entries)[..n])
      invariant forall err :: err in errors <==> Structural(layer, entries, n, err)
    {
      var e := entries[n];
      ghost var before := errors;
      var found := seq(|e.flaws|, i requires 0 <= i < |e.flaws| => Flaw(layer, e.id, e.flaws[i]));
      if e.id.kind !in KINDS {
        found := found + [UnknownKind(layer, e.id)];
      }
      if e.id in seen {
        found := found + [DuplicateKey(layer, e.id)];
      }
      assert forall err :: err in found <==> AtEntry(layer, entries, n, err) by {
        forall err | AtEntry(layer, entries, n, err)
          ensures err in found
        {
          if err.Flaw? {
            var i :| 0 <= i < |e.flaws| && e.flaws[i] == err.text;
            assert found[i] == err;
          }
        }
      }
      errors := errors + found;
      seen := seen + {e.id};
    }
  }

  // `index` remembers one layer per identity, so no identity can be a key of
  // both sets that the collision test intersects.
  function Clashes(index: map<Ident, Layer>): set<Ident> {
    var coreKeys := set i | i in index && index[i] == Core;
    var projectKeys := set i | i in index && index[i] == Project;
    coreKeys * projectKeys
  }

  method IndexTracked(entries: seq<Entry>, layer: Layer, index: map<Ident, Layer>)
    returns (out: map<Ident, Layer>)
    ensures out.Keys == index.Keys + Elems(Ids(entries))
    ensures forall i :: i in out ==> out[i] == if i in index then index[i] else layer
  {
    out := index;
    var ids := Ids(entries);
    for n := 0 to |entries|
      invariant out.Keys == index.Keys + Elems(ids[..n])
      invariant forall i :: i in out ==> out[i] == if i in index then index[i] else layer
    {
      if entries[n].id !in out {
        out := out[entries[n].id := layer];
      }
    }
    assert ids[..|entries|] == ids;
  }

  method CollisionErrors(clashes: set<Ident>) returns (errors: seq<PackageError>)
    ensures forall err :: err in errors <==> err.Collision? && err.id in clashes
  {
    errors := [];
    var rest := clashes;
    while rest != {}
      invariant rest <= clashes
      invariant forall err :: err in errors <==> err.Collision? && err.id in clashes - rest
      decreases rest
    {
      var c :| c in rest;
      errors := errors + [Collision(c)];
      rest := rest - {c};
    }
  }

  ghost predicate UnresolvedAt(ms: Manifests, layer: Layer, e: Entry, target: Ident) {
    target in e.dependencies && forall x :: x in AllowedDeps(layer) ==> target !in ms.Available(x)
  }

  ghost predicate UnresolvedIn(ms: Manifests, layer: Layer, entries: seq<Entry>, err: PackageError) {
    && err.Unresolved? && err.layer == layer
    && exists e :: e in entries && e.id == err.id && UnresolvedAt(ms, layer, e, err.target)
  }

  method ResolveEntry(ms: Manifests, scan: ScanOrder, layer: Layer, e: Entry)
    returns (edges: seq<Node>, errors: seq<PackageError>)
    requires ValidScan(scan)
    ensures edges == Edges(ms, scan[layer], e.dependencies)
    ensures forall err :: err in errors <==> UnresolvedIn(ms, layer, [e], err)
  {
    ScanVisitsAllowed(scan, layer);
    edges, errors := [], [];
    var deps := e.dependencies;
    for n := 0 to |deps|
      invariant edges == Edges(ms, scan[layer], deps[..n])
      invariant forall err :: err in errors <==>
                err.Unresolved? && err.layer == layer && err.id == e.id && err.target in deps[..n]
                && UnresolvedAt(ms, layer, e, err.target)
    {
      assert deps[..n + 1][..n] == deps[..n];
      var owner := Owner(ms, scan[layer], deps[n]);
      if owner.None? {
        errors := errors + [Unresolved(layer, e.id, deps[n])];
      } else {
        edges := edges + [(owner.value, deps[n])];
      }
    }
    assert deps[..|deps|] == deps;
    assert e in [e];
  }

  lemma AddNothing(ms: Manifests, scan: ScanOrder, layer: Layer, g: Graph<Node>)
    requires layer in scan
    ensures AddLayer(ms, scan, layer, [], g) == g
  {
  }

  lemma AddOne(ms: Manifests, scan: ScanOrder, layer: Layer, entries: seq<Entry>, e: Entry, g: Graph<Node>)
    requires layer in scan
    ensures AddLayer(ms, scan, layer, entries + [e], g)
            == AddLayer(ms, scan, layer, entries, g)[(layer, e.id) := Edges(ms, scan[layer], e.dependencies)]
  {
    assert (entries + [e])[..|entries|] == entries;
  }

  lemma NothingUnresolved(ms: Manifests, layer: Layer, err: PackageError)
    ensures !UnresolvedIn(ms, layer, [], err)
  {
  }

  lemma UnresolvedAppend(ms: Manifests, layer: Layer, entries: seq<Entry>, e: Entry, err: PackageError)
    ensures UnresolvedIn(ms, layer, entries + [e], err) <==>
              UnresolvedIn(ms, layer, entries, err) || UnresolvedIn(ms, layer, [e], err)
  {
    hide UnresolvedAt;
    assert forall x :: x in entries + [e] <==> x in entries || x == e;
    assert e in [e];
  }

  method ResolveLayer(ms: Manifests, scan: ScanOrder, layer: Layer, before: Graph<Node>)
    returns (graph: Graph<Node>, errors: seq<PackageError>)
    requires ValidScan(scan)
    ensures graph == AddLayer(ms, scan, layer, ms.Of(layer), before)
    ensures forall err :: err in errors <==> UnresolvedIn(ms, layer, ms.Of(layer), err)
  {
    assert layer in scan;
    hide ValidScan, UnresolvedIn, Edges, AddLayer;
    graph, errors := before, [];
    AddNothing(ms, scan, layer, before);
    forall err ensures !UnresolvedIn(ms, layer, [], err) { NothingUnresolved(ms, layer, err); }
    var entries := ms.Of(layer);
    for n := 0 to |entries|
      invariant graph == AddLayer(ms, scan, layer, entries[..n], before)
      invariant forall err :: err in errors <==> UnresolvedIn(ms, layer, entries[..n], err)
    {
      var edges, unresolved := ResolveEntry(ms, scan, layer, entries[n]);
      assert entries[..n + 1] == entries[..n] + [entries[n]];
      AddOne(ms, scan, layer, entries[..n], entries[n], before);
      forall err { UnresolvedAppend(ms, layer, entries[..n], entries[n], err); }
      graph := graph[(layer, entries[n].id) := edges];
      errors := errors + unresolved;
    }
    assert entries[..|entries|] == entries;
  }

  // What the report holds, message by message.
  ghost predicate Reported(ms: Manifests, err: PackageError) {
    match err
    case Collision(_) => false
    case CycleVia(_) => false
    case Unresolved(l, _, _) => UnresolvedIn(ms, l, ms.Of(l), err)
    case _ => Structural(err.layer, ms.Of(err.layer), |ms.Of(err.layer)|, err)
  }

  method CheckAllEntries(ms: Manifests) returns (errors: seq<PackageError>)
    ensures forall err: PackageError :: err in errors <==>
              !err.Unresolved? && !err.CycleVia? && Reported(ms, err)
  {
    var e0 := CheckEntries(Core, ms.core);
    var e1 := CheckEntries(Project, ms.project);
    var e2 := CheckEntries(Personal, ms.personal);
    var index := IndexTracked(ms.core, Core, map[]);
    index := IndexTracked(ms.project, Project, index);
    var e3 := CollisionErrors(Clashes(index));
    errors := e0 + e1 + e2 + e3;
    forall err: PackageError
      ensures err in errors <==> !err.Unresolved? && !err.CycleVia? && Reported(ms, err)
    {
      assert err in errors <==> err in e0 || err in e1 || err in e2 || err in e3;
    }
  }

  method ResolveAll(ms: Manifests, scan: ScanOrder) returns (graph: Graph<Node>, errors: seq<PackageError>)
    requires ValidScan(scan)
    ensures graph == PackageGraph(ms, scan)
    ensures forall err: PackageError :: err in errors <==> err.Unresolved? && Reported(ms, err)
  {
    var e0, e1, e2;
    graph, e0 := ResolveLayer(ms, scan, Core, map[]);
    graph, e1 := ResolveLayer(ms, scan, Project, graph);
    graph, e2 := ResolveLayer(ms, scan, Personal, graph);
    errors := e0 + e1 + e2;
    forall err: PackageError
      ensures err in errors <==> err.Unresolved? && Reported(ms, err)
    {
      assert err in errors <==> err in e0 || err in e1 || err in e2;
    }
  }

  method Validate(ms: Manifests, scan: ScanOrder) returns (errors: seq<PackageError>)
    requires ValidScan(scan)
    ensures forall err: PackageError :: !err.CycleVia? ==> (err in errors <==> Reported(ms, err))
    ensures (exists n :: CycleVia(n) in errors) <==> Cyclic(PackageGraph(ms, scan))
  {
    var structural := CheckAllEntries(ms);
    var graph, unresolved := ResolveAll(ms, scan);
    errors := structural + unresolved;
    var via, _ := FindCycle(graph);
    if via.Some? {
      errors := errors + [CycleVia(via.value)];
      assert errors[|errors| - 1] == CycleVia(via.value);
    }
  }

  // --- the report, on the entries themselves ---------------------------------------------

  // A dependency is resolved in the entry's own layer or in Core, and nowhere else.
  lemma UnresolvedExactly(ms: Manifests, layer: Layer, id: Ident, target: Ident)
    ensures Reported(ms, Unresolved(layer, id, target)) <==>
              && (exists e :: e in ms.Of(layer) && e.id == id && target in e.dependencies)
              && (forall x :: x in ms.Of(layer) || x in ms.core ==> x.id != target)
  {
    assert ms.Of(Core) == ms.core;
    assert forall l :: target in ms.Available(l) <==> exists x :: x in ms.Of(l) && x.id == target;
    assert forall l :: l in AllowedDeps(layer) <==> l == layer || l == Core;
    hide AllowedDeps, Manifests.Of;
    assert forall e :: UnresolvedAt(ms, layer, e, target) <==>
                         target in e.dependencies && target !in ms.Available(layer) && target !in ms.Available(Core);
  }

  // The six kinds.
  lemma KindsExactly(ms: Manifests, layer: Layer, id: Ident)
    ensures Reported(ms, UnknownKind(layer, id)) <==>
              && (exists e :: e in ms.Of(layer) && e.id == id)
              && id.kind !in ["rule", "skill", "hook", "agent_definition", "model_profile", "workflow"]
  {
    var entries := ms.Of(layer);
    assert forall k :: k in KINDS <==> k in ["rule", "skill", "hook", "agent_definition", "model_profile", "workflow"];
    hide Manifests.Of, KINDS;
    if e :| e in entries && e.id == id {
      var i :| 0 <= i < |entries| && entries[i] == e;
      assert id.kind !in KINDS ==> AtEntry(layer, entries, i, UnknownKind(layer, id));
    }
  }

  // A key met before in the same package.
  lemma DuplicatesExactly(ms: Manifests, layer: Layer, id: Ident)
    ensures Reported(ms, DuplicateKey(layer, id)) <==>
              exists i, j :: 0 <= i < j < |ms.Of(layer)| && ms.Of(layer)[i].id == id && ms.Of(layer)[j].id == id
  {
    var entries := ms.Of(layer);
    hide Manifests.Of, KINDS;
    if i, j :| 0 <= i < j < |entries| && entries[i].id == id && entries[j].id == id {
      assert Ids(entries)[..j][i] == id;
      assert AtEntry(layer, entries, j, DuplicateKey(layer, id));
    }
    if Structural(layer, entries, |entries|, DuplicateKey(layer, id)) {
      var j: nat :| j < |entries| && AtEntry(layer, entries, j, DuplicateKey(layer, id));
      var i :| 0 <= i < j && Ids(entries)[..j][i] == id;
      assert entries[i].id == id;
    }
  }

  // The test for a key shared by Core and Project never fires, so it reports
  // what it is meant to report exactly for the manifests that share no key.
  lemma CollisionTestIsDead(ms: Manifests, errors: seq<PackageError>)
    requires forall err: PackageError :: !err.CycleVia? ==> (err in errors <==> Reported(ms, err))
    ensures (forall id :: Collision(id) in errors <==> id in ms.Available(Core) && id in ms.Available(Project))
            <==> ms.Available(Core) !! ms.Available(Project)
  {
    forall id
      ensures Collision(id) !in errors
    {
      assert !Reported(ms, Collision(id));
    }
    if id :| id in ms.Available(Core) && id in ms.Available(Project) {
      assert Collision(id) !in errors;
    }
  }
}
