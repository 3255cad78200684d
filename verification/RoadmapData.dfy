// Importing a roadmap document and exporting it again: documentToRoadmap and the
// document methods of the session data source (dashboard/src/roadmapData.ts),
// roadmapToDocument (dashboard/src/roadmapFormat.ts).
module RoadmapData {
  import opened Basics
  import opened JsonValues
  import opened RoadmapTypes
  import opened RoadmapGraph
  import opened RoadmapFormat

  // A step as the dashboard holds it: the fields that are exchanged, then its
  // place and progress.
  datatype RoadmapStep = RoadmapStep(
    key: string,
    title: string,
    objective: Option<string>,
    context: Option<string>,
    instructions: Option<string>,
    acceptanceCriteria: seq<string>,
    notes: Option<string>,
    metadata: map<string, Scalar>,
    dependsOn: seq<string>,
    tasks: seq<Task>,
    position: nat,
    state: string,
    available: bool,
    waitingOn: seq<string>,
    taskTotal: nat)

  datatype RoadmapPhase = RoadmapPhase(
    key: string,
    title: string,
    objective: Option<string>,
    position: nat,
    steps: seq<RoadmapStep>)

  datatype Roadmap = Roadmap(
    id: string,
    projectId: string,
    title: string,
    objective: Option<string>,
    context: Option<string>,
    metadata: map<string, Scalar>,
    status: string,
    revisionNo: int,
    approvedRevisionNo: Option<int>,
    total: nat,
    phases: seq<RoadmapPhase>)

  function ImportStep(s: Step, position: nat): RoadmapStep {
    RoadmapStep(
      s.key, s.title, s.objective, s.context, s.instructions, s.acceptanceCriteria, s.notes, s.metadata, s.dependsOn, s.tasks,
      position, "not_started", s.dependsOn == [], s.dependsOn, |s.tasks|)
  }

  function ImportPhase(p: Phase, position: nat): RoadmapPhase {
    RoadmapPhase(p.key, p.title, p.objective, position,
                 seq(|p.steps|, i requires 0 <= i < |p.steps| => ImportStep(p.steps[i], i)))
  }

  function StepCount(phases: seq<RoadmapPhase>): nat
    decreases |phases|
  {
    if phases == [] then 0 else StepCount(phases[..|phases| - 1]) + |phases[|phases| - 1].steps|
  }

  function NextRevision(d: Document, previous: Option<Roadmap>): int {
    if d.revisionNo.Some? then d.revisionNo.value
    else (if previous.Some? then previous.value.revisionNo else 0) + 1
  }

  function DocumentToRoadmap(projectId: string, d: Document, previous: Option<Roadmap>): Roadmap {
    var phases := seq(|d.phases|, i requires 0 <= i < |d.phases| => ImportPhase(d.phases[i], i));
    Roadmap(
      if previous.Some? then previous.value.id else "session-roadmap-" + projectId,
      projectId, d.title, d.objective, d.context, d.metadata, "draft",
      NextRevision(d, previous),
      if previous.Some? then previous.value.approvedRevisionNo else None,
      StepCount(phases),
      phases)
  }

  function ExportTask(t: Task): Task {
    Task(t.hydrationKey, t.title, t.description)
  }

  function ExportStep(s: RoadmapStep): Step {
    Step(
      s.key, s.title, s.objective, s.context, s.instructions, s.acceptanceCriteria, s.notes, s.metadata, s.dependsOn,
      seq(|s.tasks|, i requires 0 <= i < |s.tasks| => ExportTask(s.tasks[i])))
  }

  function ExportPhase(p: RoadmapPhase): Phase {
    Phase(p.key, p.title, p.objective, seq(|p.steps|, i requires 0 <= i < |p.steps| => ExportStep(p.steps[i])))
  }

  function ToDocument(r: Roadmap): Document {
    Document(r.title, r.objective, r.context, r.metadata,
             seq(|r.phases|, i requires 0 <= i < |r.phases| => ExportPhase(r.phases[i])), None, Some(r.revisionNo))
  }

  // roadmapToDocument: what it builds is validated again, so it returns the
  // roadmap's own document or refuses one that breaks a limit or a graph rule.
  method RoadmapToDocument(rules: Rules, r: Roadmap) returns (d: Option<Document>)
    ensures d.Some? <==> Acceptable(rules, ToDocument(r))
    ensures d.Some? ==> d.value == ToDocument(r)
  {
    hide *;
    d := Validate(rules, EncodeDocument(ToDocument(r)));
    ValidationIsExact(rules, EncodeDocument(ToDocument(r)), ToDocument(r));
  }

  lemma StepComesBack(s: Step, position: nat)
    ensures ExportStep(ImportStep(s, position)) == s
  {
    assert ExportStep(ImportStep(s, position)).tasks == s.tasks;
  }

  lemma PhaseComesBack(p: Phase, position: nat)
    ensures ExportPhase(ImportPhase(p, position)) == p
  {
    hide ExportStep, ImportStep;
    forall i | 0 <= i < |p.steps|
      ensures ExportStep(ImportStep(p.steps[i], i)) == p.steps[i]
    {
      StepComesBack(p.steps[i], i);
    }
    assert ExportPhase(ImportPhase(p, position)).steps == p.steps;
  }

  lemma ImportThenExport(projectId: string, d: Document, previous: Option<Roadmap>)
    ensures ToDocument(DocumentToRoadmap(projectId, d, previous))
            == d.(exportedAt := None, revisionNo := Some(NextRevision(d, previous)))
  {
    hide ExportPhase, ImportPhase;
    var back := ToDocument(DocumentToRoadmap(projectId, d, previous));
    forall i | 0 <= i < |d.phases|
      ensures back.phases[i] == d.phases[i]
    {
      PhaseComesBack(d.phases[i], i);
    }
    assert back.phases == d.phases;
  }

  // An accepted document comes back from import and export as it was, except for
  // its export date and a filled-in revision number.
  lemma DocumentSurvives(rules: Rules, projectId: string, v: Json, previous: Option<Roadmap>)
    requires Validated(rules, v).Some?
    ensures var d := Validated(rules, v).value;
            Validated(rules, EncodeDocument(ToDocument(DocumentToRoadmap(projectId, d, previous))))
            == Some(d.(exportedAt := None, revisionNo := Some(NextRevision(d, previous))))
  {
    var d := Validated(rules, v).value;
    var out := d.(exportedAt := None, revisionNo := Some(NextRevision(d, previous)));
    ImportThenExport(projectId, d, previous);
    ValidationIsExact(rules, v, out);
    hide Validated, EncodeDocument, DocumentToRoadmap, ToDocument, NextRevision, WellPlaced;
  }

  // What an import makes of a document: every step at its place, not started,
  // available exactly when it waits for nothing; a revision above the one before
  // unless the document names its own; the project's other data kept.
  lemma ImportedRoadmap(projectId: string, d: Document, previous: Option<Roadmap>)
    ensures var r := DocumentToRoadmap(projectId, d, previous);
            && r.status == "draft" && r.projectId == projectId
            && r.total == Sum(StepCounts(d.phases))
            && (d.revisionNo.Some? ==> r.revisionNo == d.revisionNo.value)
            && (d.revisionNo.None? && previous.Some? ==> r.revisionNo == previous.value.revisionNo + 1)
            && (d.revisionNo.None? && previous.None? ==> r.revisionNo == 1)
            && (previous.Some? ==> r.id == previous.value.id && r.approvedRevisionNo == previous.value.approvedRevisionNo)
            && (previous.None? ==> r.approvedRevisionNo == None)
            && |r.phases| == |d.phases|
  {
    var phases := DocumentToRoadmap(projectId, d, previous).phases;
    StepsCounted(d.phases, phases);
  }

  lemma ImportedStep(projectId: string, d: Document, previous: Option<Roadmap>, at: Place)
    requires IsPlace(d.phases, at)
    ensures var r := DocumentToRoadmap(projectId, d, previous);
            && at.phase < |r.phases| && r.phases[at.phase].position == at.phase
            && at.step < |r.phases[at.phase].steps|
            && var s := r.phases[at.phase].steps[at.step];
               && s.key == StepAt(d.phases, at).key && s.position == at.step && s.state == "not_started"
               && s.waitingOn == StepAt(d.phases, at).dependsOn && (s.available <==> s.waitingOn == [])
               && s.taskTotal == |StepAt(d.phases, at).tasks|
  {
  }

  lemma {:induction false} StepsCounted(from: seq<Phase>, phases: seq<RoadmapPhase>)
    requires |from| == |phases| && forall i :: 0 <= i < |from| ==> |phases[i].steps| == |from[i].steps|
    ensures StepCount(phases) == Sum(StepCounts(from))
    decreases |phases|
  {
    if phases != [] {
      var n := |phases| - 1;
      StepsCounted(from[..n], phases[..n]);
      assert StepCounts(from) == StepCounts(from[..n]) + [|from[n].steps|];
      SumAppend(StepCounts(from[..n]), |from[n].steps|);
    }
  }

  // --- the session data source --------------------------------------------------------

  class DataSource {
    const rules: Rules
    var state: map<string, Option<Roadmap>>

    constructor (rules: Rules, state: map<string, Option<Roadmap>>)
      ensures this.rules == rules && this.state == state
    {
      this.rules, this.state := rules, state;
    }

    function Current(projectId: string): Option<Roadmap>
      reads this
    {
      if projectId in state then state[projectId] else None
    }

    // A refused document changes nothing; an accepted one replaces the roadmap.
    method ReplaceDocument(projectId: string, input: Json) returns (r: Option<Roadmap>)
      modifies this
      ensures r.Some? <==> Validated(rules, input).Some?
      ensures r.None? ==> state == old(state)
      ensures r.Some? ==>
                && r.value == DocumentToRoadmap(projectId, Validated(rules, input).value, old(Current(projectId)))
                && state == old(state)[projectId := r]
    {
      var d := Validate(rules, input);
      if d.None? {
        return None;
      }
      r := Some(DocumentToRoadmap(projectId, d.value, Current(projectId)));
      state := state[projectId := r];
    }
  }
}
