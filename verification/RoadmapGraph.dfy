// The whole-document checks of a roadmap (validateGraph in
// dashboard/src/roadmapFormat.ts): size limits, unique keys, clean dependency
// lists, and a depth-first search with a `visiting` and a `visited` set.
module RoadmapGraph {
  import opened Basics
  import opened Digraph
  import opened RoadmapTypes

  datatype GraphFailure =
    | TooManySteps
    | DuplicatePhase(key: string)
    | TooManyTasks
    | DuplicateStep(key: string)
    | UnknownDependency(step: string, dependency: string)
    | SelfDependency(step: string)
    | DuplicateDependency(step: string, dependency: string)
    | DependencyCycle

  function AllSteps(phases: seq<Phase>): seq<Step> {
    if phases == [] then [] else AllSteps(phases[..|phases| - 1]) + phases[|phases| - 1].steps
  }

  function TasksOf(steps: seq<Step>): nat {
    if steps == [] then 0 else TasksOf(steps[..|steps| - 1]) + |steps[|steps| - 1].tasks|
  }

  function TaskTotal(phases: seq<Phase>): nat {
    if phases == [] then 0 else TaskTotal(phases[..|phases| - 1]) + TasksOf(phases[|phases| - 1].steps)
  }

  function StepKeys(steps: seq<Step>): (keys: seq<string>)
    ensures |keys| == |steps| && forall i :: 0 <= i < |steps| ==> keys[i] == steps[i].key
  {
    seq(|steps|, i requires 0 <= i < |steps| => steps[i].key)
  }

  function PhaseKeys(phases: seq<Phase>): (keys: seq<string>)
    ensures |keys| == |phases| && forall i :: 0 <= i < |phases| ==> keys[i] == phases[i].key
  {
    seq(|phases|, i requires 0 <= i < |phases| => phases[i].key)
  }

  // The `depends_on` relation of a list of steps.
  function DependsOn(steps: seq<Step>): Graph<string> {
    if steps == [] then map[]
    else
      var n := |steps| - 1;
      DependsOn(steps[..n])[steps[n].key := steps[n].dependsOn]
  }

  lemma {:induction false} DependsOnKeys(steps: seq<Step>)
    ensures DependsOn(steps).Keys == Elems(StepKeys(steps))
  {
    if steps != [] {
      var n := |steps| - 1;
      DependsOnKeys(steps[..n]);
      assert StepKeys(steps) == StepKeys(steps[..n]) + [steps[n].key];
    }
  }

  lemma {:induction false} DependsOnLookup(steps: seq<Step>, i: nat)
    requires i < |steps| && Distinct(StepKeys(steps))
    ensures steps[i].key in DependsOn(steps) && DependsOn(steps)[steps[i].key] == steps[i].dependsOn
  {
    var n := |steps| - 1;
    var keys := StepKeys(steps);
    if i < n {
      assert keys[i] != keys[n];
      assert StepKeys(steps[..n]) == keys[..n];
      DependsOnLookup(steps[..n], i);
    }
  }

  ghost predicate CleanDependencies(step: Step, keys: set<string>) {
    && Distinct(step.dependsOn)
    && forall d :: d in step.dependsOn ==> d in keys && d != step.key
  }

  ghost predicate AllClean(steps: seq<Step>) {
    forall s :: s in steps ==> CleanDependencies(s, Elems(StepKeys(steps)))
  }

  ghost predicate Sized(phases: seq<Phase>) {
    && |AllSteps(phases)| <= 300
    && Distinct(PhaseKeys(phases))
    && TaskTotal(phases) <= 500
  }

  // Every test but the last.
  ghost predicate Tidy(phases: seq<Phase>) {
    var steps := AllSteps(phases);
    && Sized(phases)
    && Distinct(StepKeys(steps))
    && AllClean(steps)
  }

  ghost predicate Accepted(phases: seq<Phase>) {
    Tidy(phases) && !Cyclic(DependsOn(AllSteps(phases)))
  }

  ghost predicate Repeats<T>(s: seq<T>, x: T) {
    exists i, j :: 0 <= i < j < |s| && s[i] == x && s[j] == x
  }

  ghost predicate BadDependency(step: Step, keys: set<string>, f: GraphFailure) {
    match f
    case UnknownDependency(s, d) => s == step.key && d in step.dependsOn && d !in keys
    case SelfDependency(s) => s == step.key && s in step.dependsOn
    case DuplicateDependency(s, d) => s == step.key && Repeats(step.dependsOn, d)
    case _ => false
  }

  // What each refusal says about the document: the tests before it passed, and
  // the thing it names is wrong.
  ghost predicate Explains(phases: seq<Phase>, f: GraphFailure) {
    var steps := AllSteps(phases);
    match f
    case TooManySteps => |steps| > 300
    case DuplicatePhase(k) => |steps| <= 300 && Repeats(PhaseKeys(phases), k)
    case TooManyTasks =>
      |steps| <= 300 && Distinct(PhaseKeys(phases)) && TaskTotal(phases) > 500
    case DuplicateStep(k) => Sized(phases) && Repeats(StepKeys(steps), k)
    case DependencyCycle => Tidy(phases) && Cyclic(DependsOn(steps))
    case _ =>
      && Sized(phases) && Distinct(StepKeys(steps))
      && exists s :: s in steps && BadDependency(s, Elems(StepKeys(steps)), f)
  }

  // The search state of the inner `visit` closure.
  class StepSearch {
    const graph: Graph<string>
    var visiting: set<string>
    var visited: set<string>
    ghost var order: seq<string>

    ghost predicate Valid()
      reads this
    {
      && Sealed(graph, order)
      && visited == Elems(order)
      && visiting <= graph.Keys
    }

    constructor (graph: Graph<string>)
      ensures Valid() && this.graph == graph && visiting == {}
    {
      this.graph := graph;
      visiting, visited, order := {}, {}, [];
    }

    // `ok` is false when the program throws "dependency cycle".
    method Visit(key: string, ghost trail: seq<string>) returns (ok: bool)
      requires Valid() && key in graph && visiting == Elems(trail) && IsPath(graph, trail + [key])
      requires forall n, m :: n in graph && m in graph[n] ==> m in graph
      modifies this
      ensures ok ==> Valid() && visiting == old(visiting)
      ensures ok ==> key in visited && old(visited) <= visited
      ensures !ok ==> Cyclic(graph)
      decreases graph.Keys - visiting
    {
      if key in visiting {
        CloseCycle(graph, trail, key);
        return false;
      }
      if key in visited {
        return true;
      }
      visiting := visiting + {key};
      ghost var inner := trail + [key];
      assert visiting == Elems(inner);
      var deps := graph[key];
      var i := 0;
      while i < |deps|
        invariant 0 <= i <= |deps|
        invariant Valid() && visiting == Elems(inner) && old(visited) <= visited
        invariant forall j :: 0 <= j < i ==> deps[j] in visited
      {
        ExtendPath(graph, inner, deps[i]);
        ok := Visit(deps[i], inner);
        if !ok {
          return;
        }
        i := i + 1;
      }
      visiting := visiting - {key};
      SealAppend(graph, order, key);
      order := order + [key];
      visited := visited + {key};
      return true;
    }
  }

  method CheckPhases(phases: seq<Phase>) returns (failure: Option<GraphFailure>)
    ensures failure.None? ==> Distinct(PhaseKeys(phases)) && TaskTotal(phases) <= 500
    ensures failure.Some? ==>
              match failure.value
              case DuplicatePhase(k) => Repeats(PhaseKeys(phases), k)
              case TooManyTasks => Distinct(PhaseKeys(phases)) && TaskTotal(phases) > 500
              case _ => false
  {
    var phaseKeys: set<string> := {};
    var taskCount := 0;
    ghost var keys := PhaseKeys(phases);
    for i := 0 to |phases|
      invariant phaseKeys == Elems(keys[..i]) && Distinct(keys[..i])
      invariant taskCount == TaskTotal(phases[..i])
    {
      if phases[i].key in phaseKeys {
        return Some(DuplicatePhase(phases[i].key));
      }
      phaseKeys := phaseKeys + {phases[i].key};
      taskCount := taskCount + TasksOf(phases[i].steps);
      assert phases[..i + 1][..i] == phases[..i];
      assert keys[..i + 1] == keys[..i] + [keys[i]];
    }
    assert keys[..|phases|] == keys && phases[..|phases|] == phases;
    if taskCount > 500 {
      return Some(TooManyTasks);
    }
    return None;
  }

  method IndexSteps(steps: seq<Step>) returns (failure: Option<GraphFailure>, graph: Graph<string>)
    ensures failure.None? ==> Distinct(StepKeys(steps)) && graph == DependsOn(steps)
    ensures failure.Some? ==>
              failure.value.DuplicateStep? && Repeats(StepKeys(steps), failure.value.key)
  {
    graph := map[];
    ghost var keys := StepKeys(steps);
    for i := 0 to |steps|
      invariant graph == DependsOn(steps[..i]) && graph.Keys == Elems(keys[..i])
      invariant Distinct(keys[..i])
    {
      if steps[i].key in graph {
        assert keys[i] in keys[..i];
        return Some(DuplicateStep(steps[i].key)), graph;
      }
      assert steps[..i + 1][..i] == steps[..i];
      graph := graph[steps[i].key := steps[i].dependsOn];
      assert keys[..i + 1] == keys[..i] + [keys[i]];
    }
    assert steps[..|steps|] == steps && keys[..|steps|] == keys;
    failure := None;
  }

  method CheckDependencies(step: Step, graph: Graph<string>) returns (failure: Option<GraphFailure>)
    ensures failure.None? ==> CleanDependencies(step, graph.Keys)
    ensures failure.Some? ==> BadDependency(step, graph.Keys, failure.value)
  {
    var dependencies: set<string> := {};
    for i := 0 to |step.dependsOn|
      invariant dependencies == Elems(step.dependsOn[..i]) && Distinct(step.dependsOn[..i])
      invariant forall j :: 0 <= j < i ==> step.dependsOn[j] in graph && step.dependsOn[j] != step.key
    {
      var d := step.dependsOn[i];
      if d !in graph {
        return Some(UnknownDependency(step.key, d));
      }
      if d == step.key {
        return Some(SelfDependency(step.key));
      }
      if d in dependencies {
        return Some(DuplicateDependency(step.key, d));
      }
      dependencies := dependencies + {d};
    }
    return None;
  }

  method CheckAllDependencies(steps: seq<Step>, graph: Graph<string>) returns (failure: Option<GraphFailure>)
    ensures failure.None? ==> forall s :: s in steps ==> CleanDependencies(s, graph.Keys)
    ensures failure.Some? ==> exists s :: s in steps && BadDependency(s, graph.Keys, failure.value)
  {
    for i := 0 to |steps|
      invariant forall j :: 0 <= j < i ==> CleanDependencies(steps[j], graph.Keys)
    {
      failure := CheckDependencies(steps[i], graph);
      if failure.Some? {
        assert steps[i] in steps;
        return;
      }
    }
    failure := None;
  }

  method SearchAll(keys: seq<string>, graph: Graph<string>) returns (acyclic: bool)
    requires graph.Keys == Elems(keys)
    requires forall n, m :: n in graph && m in graph[n] ==> m in graph
    ensures acyclic <==> !Cyclic(graph)
  {
    var search := new StepSearch(graph);
    for i := 0 to |keys|
      invariant search.Valid() && search.graph == graph && search.visiting == {}
      invariant forall j :: 0 <= j < i ==> keys[j] in search.visited
    {
      assert keys[i] in graph;
      var ok := search.Visit(keys[i], []);
      if !ok {
        return false;
      }
    }
    SealedAcyclic(graph, search.order);
    return true;
  }

  method FirstRefusal(phases: seq<Phase>) returns (failure: Option<GraphFailure>)
    ensures failure.None? ==> Accepted(phases)
    ensures failure.Some? ==> Explains(phases, failure.value)
  {
    var steps := AllSteps(phases);
    if |steps| > 300 {
      return Some(TooManySteps);
    }
    failure := CheckPhases(phases);
    if failure.Some? {
      return;
    }
    var graph;
    failure, graph := IndexSteps(steps);
    if failure.Some? {
      return;
    }
    DependsOnKeys(steps);
    failure := CheckAllDependencies(steps, graph);
    if failure.Some? {
      return;
    }
    forall n, m | n in graph && m in graph[n]
      ensures m in graph
    {
      var i :| 0 <= i < |steps| && StepKeys(steps)[i] == n;
      DependsOnLookup(steps, i);
      assert CleanDependencies(steps[i], graph.Keys);
    }
    var acyclic := SearchAll(StepKeys(steps), graph);
    if !acyclic {
      return Some(DependencyCycle);
    }
    return None;
  }

  // validateGraph: accepted exactly when the document is in order, and a refusal
  // says what is wrong with it.
  method ValidateGraph(phases: seq<Phase>) returns (failure: Option<GraphFailure>)
    ensures failure.None? <==> Accepted(phases)
    ensures failure.None? <==> WellPlaced(phases)
    ensures failure.Some? ==> Explains(phases, failure.value)
  {
    hide *;
    failure := FirstRefusal(phases);
    AcceptedExactly(phases);
    if failure.Some? {
      RefusalIsRight(phases, failure.value);
    }
  }

  // A refusal is never wrong, and "dependency cycle" is the answer exactly for
  // the otherwise tidy documents whose relation has a cycle. Together with the
  // contract of ValidateGraph: accepted if and only if Accepted.
  lemma RefusalIsRight(phases: seq<Phase>, f: GraphFailure)
    requires Explains(phases, f)
    ensures !Accepted(phases)
    ensures f.DependencyCycle? <==> Tidy(phases) && Cyclic(DependsOn(AllSteps(phases)))
  {
    var steps := AllSteps(phases);
    var keys := Elems(StepKeys(steps));
    if f.UnknownDependency? || f.SelfDependency? || f.DuplicateDependency? {
      var s :| s in steps && BadDependency(s, keys, f);
      assert !CleanDependencies(s, keys);
    }
  }

  // --- acceptance on the document itself ------------------------------------------

  // A step by its place: phase and position within it.
  datatype Place = Place(phase: nat, step: nat)

  predicate IsPlace(phases: seq<Phase>, at: Place) {
    at.phase < |phases| && at.step < |phases[at.phase].steps|
  }

  function StepAt(phases: seq<Phase>, at: Place): Step
    requires IsPlace(phases, at)
  {
    phases[at.phase].steps[at.step]
  }

  ghost predicate DependsAt(phases: seq<Phase>, a: Place, b: Place) {
    IsPlace(phases, a) && IsPlace(phases, b) && StepAt(phases, b).key in StepAt(phases, a).dependsOn
  }

  // Steps that depend on each other in a ring.
  ghost predicate Ring(phases: seq<Phase>, ring: seq<Place>) {
    && |ring| >= 2 && ring[0] == ring[|ring| - 1]
    && forall i :: 0 <= i < |ring| - 1 ==> DependsAt(phases, ring[i], ring[i + 1])
  }

  ghost predicate UniqueKeys(phases: seq<Phase>) {
    forall a, b :: IsPlace(phases, a) && IsPlace(phases, b) && StepAt(phases, a).key == StepAt(phases, b).key ==> a == b
  }

  // Every dependency is the key of another step, wherever it stands, and is named once.
  ghost predicate KnownDependencies(phases: seq<Phase>) {
    forall a :: IsPlace(phases, a) ==>
      && Distinct(StepAt(phases, a).dependsOn)
      && forall d :: d in StepAt(phases, a).dependsOn ==> exists b :: IsPlace(phases, b) && b != a && StepAt(phases, b).key == d
  }

  function Sum(ns: seq<nat>): nat {
    if ns == [] then 0 else ns[0] + Sum(ns[1..])
  }

  function StepCounts(phases: seq<Phase>): seq<nat> {
    seq(|phases|, i requires 0 <= i < |phases| => |phases[i].steps|)
  }

  function TaskCounts(steps: seq<Step>): seq<nat> {
    seq(|steps|, i requires 0 <= i < |steps| => |steps[i].tasks|)
  }

  // The tasks of each phase, counted step by step.
  function PhaseTasks(phases: seq<Phase>): seq<nat> {
    seq(|phases|, i requires 0 <= i < |phases| => Sum(TaskCounts(phases[i].steps)))
  }

  ghost predicate WellPlaced(phases: seq<Phase>) {
    && Sum(StepCounts(phases)) <= 300
    && (forall i, j :: 0 <= i < j < |phases| ==> phases[i].key != phases[j].key)
    && Sum(PhaseTasks(phases)) <= 500
    && UniqueKeys(phases) && KnownDependencies(phases)
    && !exists ring :: Ring(phases, ring)
  }

  lemma {:induction false} SumAppend(ns: seq<nat>, n: nat)
    ensures Sum(ns + [n]) == Sum(ns) + n
    decreases |ns|
  {
    if ns != [] {
      assert (ns + [n])[1..] == ns[1..] + [n];
      SumAppend(ns[1..], n);
    }
  }

  lemma {:induction false} StepsAreCounted(phases: seq<Phase>)
    ensures |AllSteps(phases)| == Sum(StepCounts(phases))
  {
    if phases != [] {
      var n := |phases| - 1;
      StepsAreCounted(phases[..n]);
      assert StepCounts(phases) == StepCounts(phases[..n]) + [|phases[n].steps|];
      SumAppend(StepCounts(phases[..n]), |phases[n].steps|);
    }
  }

  lemma {:induction false} TasksOfIsSum(steps: seq<Step>)
    ensures TasksOf(steps) == Sum(TaskCounts(steps))
  {
    if steps != [] {
      var n := |steps| - 1;
      TasksOfIsSum(steps[..n]);
      assert TaskCounts(steps) == TaskCounts(steps[..n]) + [|steps[n].tasks|];
      SumAppend(TaskCounts(steps[..n]), |steps[n].tasks|);
    }
  }

  lemma {:induction false} TasksAreCounted(phases: seq<Phase>)
    ensures TaskTotal(phases) == Sum(PhaseTasks(phases))
  {
    if phases != [] {
      var n := |phases| - 1;
      TasksAreCounted(phases[..n]);
      TasksOfIsSum(phases[n].steps);
      assert PhaseTasks(phases) == PhaseTasks(phases[..n]) + [Sum(TaskCounts(phases[n].steps))];
      SumAppend(PhaseTasks(phases[..n]), Sum(TaskCounts(phases[n].steps)));
    }
  }

  // Where a step stands in the flattened list.
  function IndexOf(phases: seq<Phase>, at: Place): nat
    requires IsPlace(phases, at)
  {
    |AllSteps(phases[..at.phase])| + at.step
  }

  lemma {:induction false} StepsStayInPlace(phases: seq<Phase>, at: Place)
    requires IsPlace(phases, at)
    ensures IndexOf(phases, at) < |AllSteps(phases)| && AllSteps(phases)[IndexOf(phases, at)] == StepAt(phases, at)
  {
    var n := |phases| - 1;
    if at.phase < n {
      assert phases[..n][..at.phase] == phases[..at.phase];
      StepsStayInPlace(phases[..n], at);
    }
  }

  lemma {:induction false} EveryStepHasAPlace(phases: seq<Phase>, i: nat) returns (at: Place)
    requires i < |AllSteps(phases)|
    ensures IsPlace(phases, at) && IndexOf(phases, at) == i
  {
    var n := |phases| - 1;
    var front := |AllSteps(phases[..n])|;
    if i < front {
      at := EveryStepHasAPlace(phases[..n], i);
      assert phases[..n][..at.phase] == phases[..at.phase];
    } else {
      at := Place(n, i - front);
    }
  }

  lemma {:induction false} PrefixIsShorter(phases: seq<Phase>, a: nat, b: nat)
    requires a < b <= |phases|
    ensures |AllSteps(phases[..a])| + |phases[a].steps| <= |AllSteps(phases[..b])|
    decreases b
  {
    assert phases[..b][..b - 1] == phases[..b - 1];
    if a < b - 1 {
      PrefixIsShorter(phases, a, b - 1);
    }
  }

  lemma PlacesAreApart(phases: seq<Phase>, a: Place, b: Place)
    requires IsPlace(phases, a) && IsPlace(phases, b) && IndexOf(phases, a) == IndexOf(phases, b)
    ensures a == b
  {
    if a.phase < b.phase {
      PrefixIsShorter(phases, a.phase, b.phase);
    } else if b.phase < a.phase {
      PrefixIsShorter(phases, b.phase, a.phase);
    }
  }

  lemma KeysByPlace(phases: seq<Phase>)
    ensures Distinct(StepKeys(AllSteps(phases))) <==> UniqueKeys(phases)
  {
    hide AllSteps, IndexOf, StepAt, IsPlace;
    var steps := AllSteps(phases);
    if Distinct(StepKeys(steps)) {
      forall a, b | IsPlace(phases, a) && IsPlace(phases, b) && StepAt(phases, a).key == StepAt(phases, b).key
        ensures a == b
      {
        StepsStayInPlace(phases, a);
        StepsStayInPlace(phases, b);
        assert StepKeys(steps)[IndexOf(phases, a)] == StepKeys(steps)[IndexOf(phases, b)];
        PlacesAreApart(phases, a, b);
      }
    }
    if UniqueKeys(phases) {
      forall i, j | 0 <= i < j < |steps|
        ensures StepKeys(steps)[i] != StepKeys(steps)[j]
      {
        var a := EveryStepHasAPlace(phases, i);
        var b := EveryStepHasAPlace(phases, j);
        StepsStayInPlace(phases, a);
        StepsStayInPlace(phases, b);
      }
    }
  }

  // A key of the flattened list is the key of a step at some place.
  lemma KeyHasAPlace(phases: seq<Phase>, key: string)
    ensures key in StepKeys(AllSteps(phases)) <==> exists a :: IsPlace(phases, a) && StepAt(phases, a).key == key
  {
    hide AllSteps, IndexOf, StepAt, IsPlace;
    var steps := AllSteps(phases);
    if i :| 0 <= i < |steps| && StepKeys(steps)[i] == key {
      var a := EveryStepHasAPlace(phases, i);
      StepsStayInPlace(phases, a);
    }
    if a :| IsPlace(phases, a) && StepAt(phases, a).key == key {
      StepsStayInPlace(phases, a);
      assert StepKeys(steps)[IndexOf(phases, a)] == key;
    }
  }

  lemma DependenciesByPlace(phases: seq<Phase>)
    requires UniqueKeys(phases)
    ensures AllClean(AllSteps(phases)) <==> KnownDependencies(phases)
  {
    hide AllSteps, IndexOf, StepAt, IsPlace, Distinct;
    var steps := AllSteps(phases);
    forall key { KeyHasAPlace(phases, key); }
    if AllClean(steps) {
      forall a | IsPlace(phases, a)
        ensures Distinct(StepAt(phases, a).dependsOn)
        ensures forall d :: d in StepAt(phases, a).dependsOn ==> exists b :: IsPlace(phases, b) && b != a && StepAt(phases, b).key == d
      {
        StepsStayInPlace(phases, a);
        assert CleanDependencies(StepAt(phases, a), Elems(StepKeys(steps)));
      }
    }
    if KnownDependencies(phases) {
      forall s | s in steps
        ensures CleanDependencies(s, Elems(StepKeys(steps)))
      {
        var i :| 0 <= i < |steps| && steps[i] == s;
        var a := EveryStepHasAPlace(phases, i);
        StepsStayInPlace(phases, a);
      }
    }
  }

  // One edge of the relation, seen from both sides.
  lemma EdgeByPlace(phases: seq<Phase>, a: Place, b: Place)
    requires UniqueKeys(phases) && IsPlace(phases, a) && IsPlace(phases, b)
    ensures DependsAt(phases, a, b) <==> StepAt(phases, b).key in Succ(DependsOn(AllSteps(phases)), StepAt(phases, a).key)
  {
    hide AllSteps, IndexOf;
    KeysByPlace(phases);
    StepsStayInPlace(phases, a);
    DependsOnLookup(AllSteps(phases), IndexOf(phases, a));
  }

  lemma RingHasPlaces(phases: seq<Phase>, ring: seq<Place>)
    requires Ring(phases, ring)
    ensures forall i :: 0 <= i < |ring| ==> IsPlace(phases, ring[i])
  {
    hide StepAt;
    forall i | 0 <= i < |ring|
      ensures IsPlace(phases, ring[i])
    {
      assert DependsAt(phases, ring[if i < |ring| - 1 then i else 0], ring[if i < |ring| - 1 then i + 1 else 1]);
    }
  }

  lemma RingIsCycle(phases: seq<Phase>, ring: seq<Place>)
    requires UniqueKeys(phases) && Ring(phases, ring)
    ensures Cyclic(DependsOn(AllSteps(phases)))
  {
    RingHasPlaces(phases, ring);
    hide AllSteps, DependsOn, UniqueKeys, StepAt, IsPlace, DependsAt;
    var g := DependsOn(AllSteps(phases));
    var p := seq(|ring|, i requires 0 <= i < |ring| => StepAt(phases, ring[i]).key);
    forall i | 0 <= i < |p| - 1
      ensures p[i + 1] in Succ(g, p[i])
    {
      EdgeByPlace(phases, ring[i], ring[i + 1]);
    }
    assert IsCycle(g, p);
  }

  ghost function PlaceOf(phases: seq<Phase>, key: string): (a: Place)
    requires exists a :: IsPlace(phases, a) && StepAt(phases, a).key == key
    ensures IsPlace(phases, a) && StepAt(phases, a).key == key
  {
    var a :| IsPlace(phases, a) && StepAt(phases, a).key == key; a
  }

  lemma CycleIsRing(phases: seq<Phase>)
    requires UniqueKeys(phases) && AllClean(AllSteps(phases)) && Cyclic(DependsOn(AllSteps(phases)))
    ensures exists ring :: Ring(phases, ring)
  {
    var steps := AllSteps(phases);
    var g := DependsOn(steps);
    var p :| IsCycle(g, p);
    DependsOnKeys(steps);
    hide AllSteps, DependsOn, UniqueKeys, StepAt, IsPlace, DependsAt, AllClean;
    forall i | 0 <= i < |p|
      ensures exists a :: IsPlace(phases, a) && StepAt(phases, a).key == p[i]
    {
      assert p[if i < |p| - 1 then i + 1 else 1] in Succ(g, p[if i < |p| - 1 then i else 0]);
      assert p[i] in g;
      KeyHasAPlace(phases, p[i]);
    }
    var ring := seq(|p|, i requires 0 <= i < |p| => PlaceOf(phases, p[i]));
    forall i | 0 <= i < |ring| - 1
      ensures DependsAt(phases, ring[i], ring[i + 1])
    {
      EdgeByPlace(phases, ring[i], ring[i + 1]);
    }
    assert Ring(phases, ring);
  }

  // Acceptance, said of the document: sizes and keys over all phases, each
  // dependency the key of another step of any phase, and no ring of steps.
  lemma AcceptedExactly(phases: seq<Phase>)
    ensures Accepted(phases) <==> WellPlaced(phases)
  {
    hide AllSteps, TaskTotal, Sum, StepCounts, PhaseTasks, UniqueKeys, KnownDependencies, Cyclic, DependsOn, Ring, Distinct;
    StepsAreCounted(phases);
    TasksAreCounted(phases);
    KeysByPlace(phases);
    PhaseKeysApart(phases);
    if UniqueKeys(phases) {
      DependenciesByPlace(phases);
      if Cyclic(DependsOn(AllSteps(phases))) && AllClean(AllSteps(phases)) {
        CycleIsRing(phases);
      }
      if ring :| Ring(phases, ring) {
        RingIsCycle(phases, ring);
      }
    }
  }

  lemma PhaseKeysApart(phases: seq<Phase>)
    ensures Distinct(PhaseKeys(phases)) <==> forall i, j :: 0 <= i < j < |phases| ==> phases[i].key != phases[j].key
  {
  }
}
