// The exchange document of a roadmap (dashboard/src/roadmapTypes.ts).
module RoadmapTypes {
  import opened Basics
  import opened JsonValues

  datatype Scalar = NullValue | Flag(b: bool) | Number(n: Rational) | Text(s: string)

  datatype Task = Task(hydrationKey: string, title: string, description: Option<string>)

  datatype Step = Step(
    key: string,
    title: string,
    objective: Option<string>,
    context: Option<string>,
    instructions: Option<string>,
    acceptanceCriteria: seq<string>,
    notes: Option<string>,
    metadata: map<string, Scalar>,
    dependsOn: seq<string>,
    tasks: seq<Task>)

  datatype Phase = Phase(key: string, title: string, objective: Option<string>, steps: seq<Step>)

  // The constant `format` field is left implicit.
  datatype Document = Document(
    title: string,
    objective: Option<string>,
    context: Option<string>,
    metadata: map<string, Scalar>,
    phases: seq<Phase>,
    exportedAt: Option<string>,
    revisionNo: Option<int>)
}
