// Reading and writing the exchange document of a roadmap
// (dashboard/src/roadmapFormat.ts), with one failure for all refusals.
module RoadmapFormat {
  import opened Basics
  import opened JsonValues
  import opened RoadmapTypes
  import opened RoadmapGraph

  // Regular expressions and Date.parse, as predicates on texts.
  datatype Rules = Rules(privatePath: string -> bool, secretKey: string -> bool, timestamp: string -> bool)

  const FORMAT := "studio.roadmap/v1"

  const ROOT_FIELDS: set<string> := {"format", "title", "objective", "context", "metadata", "phases", "exported_at", "revision_no"}
  const PHASE_FIELDS: set<string> := {"key", "title", "objective", "steps"}
  const STEP_FIELDS: set<string> := {"key", "title", "objective", "context", "instructions", "acceptance_criteria", "notes", "metadata", "depends_on", "tasks"}
  const TASK_FIELDS: set<string> := {"hydration_key", "title", "description"}

  // --- texts, keys and lists ---------------------------------------------------------

  predicate IsText(rules: Rules, s: string, max: nat) {
    1 <= |s| <= max && !rules.privatePath(s)
  }

  function ParseText(rules: Rules, v: Json, max: nat): Option<string> {
    if v.Str? && IsText(rules, v.s, max) then Some(v.s) else None
  }

  predicate IsOptionalText(rules: Rules, s: Option<string>, max: nat) {
    s.Some? ==> IsText(rules, s.value, max)
  }

  function ParseOptionalText(rules: Rules, v: Json, max: nat): Option<Option<string>> {
    if v.Null? then Some(None)
    else
      var t := ParseText(rules, v, max);
      if t.Some? then Some(Some(t.value)) else None
  }

  predicate IsAlphanumeric(c: char) {
    'A' <= c <= 'Z' || 'a' <= c <= 'z' || '0' <= c <= '9'
  }

  // ^[A-Za-z0-9][A-Za-z0-9._-]{0,63}$
  predicate IsKey(s: string) {
    && 1 <= |s| <= 64 && IsAlphanumeric(s[0])
    && forall c :: c in s ==> IsAlphanumeric(c) || c in {'.', '_', '-'}
  }

  function ParseKey(v: Json): Option<string> {
    if v.Str? && IsKey(v.s) then Some(v.s) else None
  }

  // Array.map with a function that may throw.
  function ParseAll<T>(parse: Json -> Option<T>, items: seq<Json>): Option<seq<T>>
    decreases |items|
  {
    if items == [] then Some([])
    else
      var front, last := ParseAll(parse, items[..|items| - 1]), parse(items[|items| - 1]);
      if front.Some? && last.Some? then Some(front.value + [last.value]) else None
  }

  // A list of at most `max` items, empty when the field is null or missing.
  function ParseList<T>(parse: Json -> Option<T>, v: Json, max: nat): Option<seq<T>> {
    if v.Null? then Some([])
    else if v.Arr? && |v.items| <= max then ParseAll(parse, v.items)
    else None
  }

  function EncodeAll<T>(encode: T -> Json, xs: seq<T>): seq<Json> {
    seq(|xs|, i requires 0 <= i < |xs| => encode(xs[i]))
  }

  // `parse` reads back what `encode` writes exactly for the values `good` admits,
  // and admits nothing else.
  ghost predicate Inverse<T(!new)>(parse: Json -> Option<T>, encode: T -> Json, good: T -> bool) {
    && (forall v :: parse(v).Some? ==> good(parse(v).value))
    && (forall x :: parse(encode(x)) == if good(x) then Some(x) else None)
  }

  predicate AllGood<T>(good: T -> bool, xs: seq<T>) {
    forall i :: 0 <= i < |xs| ==> good(xs[i])
  }

  predicate IsList<T>(good: T -> bool, xs: seq<T>, max: nat) {
    |xs| <= max && AllGood(good, xs)
  }

  lemma {:induction false} AllRoundTrip<T(!new)>(parse: Json -> Option<T>, encode: T -> Json, good: T -> bool, xs: seq<T>)
    requires Inverse(parse, encode, good)
    ensures ParseAll(parse, EncodeAll(encode, xs)) == if AllGood(good, xs) then Some(xs) else None
    decreases |xs|
  {
    if xs != [] {
      var front, last := xs[..|xs| - 1], xs[|xs| - 1];
      AllRoundTrip(parse, encode, good, front);
      var items := EncodeAll(encode, xs);
      assert items[..|items| - 1] == EncodeAll(encode, front);
      assert parse(items[|items| - 1]) == if good(last) then Some(last) else None;
      assert xs == front + [last];
      assert AllGood(good, xs) <==> AllGood(good, front) && good(last);
    } else {
      assert EncodeAll(encode, xs) == [];
    }
  }

  lemma {:induction false} ParsedAreGood<T(!new)>(parse: Json -> Option<T>, encode: T -> Json, good: T -> bool, items: seq<Json>)
    requires Inverse(parse, encode, good)
    ensures var xs := ParseAll(parse, items); xs.Some? ==> |xs.value| == |items| && AllGood(good, xs.value)
    decreases |items|
  {
    if items != [] {
      ParsedAreGood(parse, encode, good, items[..|items| - 1]);
    }
  }

  // --- metadata ------------------------------------------------------------------------

  predicate IsScalar(rules: Rules, s: Scalar) {
    s.Text? ==> |s.s| <= 500 && !rules.privatePath(s.s)
  }

  function ParseScalar(rules: Rules, v: Json): Option<Scalar> {
    match v
    case Null => Some(NullValue)
    case Bool(b) => Some(Flag(b))
    case Num(n) => if n.Some? then Some(Number(n.value)) else None
    case Str(s) => if IsScalar(rules, Text(s)) then Some(Text(s)) else None
    case _ => None
  }

  function EncodeScalar(s: Scalar): Json {
    match s
    case NullValue => Null
    case Flag(b) => Bool(b)
    case Number(n) => Num(Some(n))
    case Text(t) => Str(t)
  }

  predicate IsMetadataName(rules: Rules, name: string) {
    1 <= |name| <= 64 && !rules.secretKey(name)
  }

  predicate IsMetadata(rules: Rules, m: map<string, Scalar>) {
    |m| <= 20 && forall name :: name in m ==> IsMetadataName(rules, name) && IsScalar(rules, m[name])
  }

  // An object when present, empty when null or missing.
  function ParseMetadata(rules: Rules, v: Json): Option<map<string, Scalar>> {
    if v.Null? then Some(map[])
    else if v.Obj? && |v.fields| <= 20
            && forall name :: name in v.fields ==> IsMetadataName(rules, name) && ParseScalar(rules, v.fields[name]).Some?
    then Some(map name | name in v.fields :: ParseScalar(rules, v.fields[name]).value)
    else None
  }

  function EncodeMetadata(m: map<string, Scalar>): Json {
    Obj(map name | name in m :: EncodeScalar(m[name]))
  }

  lemma SameSize<K, V, W>(m: map<K, V>, n: map<K, W>)
    requires m.Keys == n.Keys
    ensures |m| == |n|
  {
    assert |m| == |m.Keys| && |n| == |n.Keys|;
  }

  lemma ParsedMetadataIsGood(rules: Rules, v: Json)
    ensures ParseMetadata(rules, v).Some? ==> IsMetadata(rules, ParseMetadata(rules, v).value)
  {
    if ParseMetadata(rules, v).Some? && v.Obj? {
      SameSize(v.fields, ParseMetadata(rules, v).value);
    }
  }

  lemma MetadataRoundTrip(rules: Rules, m: map<string, Scalar>)
    ensures ParseMetadata(rules, EncodeMetadata(m)) == if IsMetadata(rules, m) then Some(m) else None
  {
    var source := EncodeMetadata(m).fields;
    SameSize(source, m);
    forall name | name in m
      ensures ParseScalar(rules, source[name]) == if IsScalar(rules, m[name]) then Some(m[name]) else None
    {
    }
    hide ParseScalar, EncodeScalar, IsScalar, IsMetadataName;
    if IsMetadata(rules, m) {
      assert ParseMetadata(rules, EncodeMetadata(m)).value == m;
    } else if |m| <= 20 {
      var name :| name in m && !(IsMetadataName(rules, name) && IsScalar(rules, m[name]));
      assert name in source;
    }
  }

  // The loop over the entries of a metadata object.
  method ReadMetadata(rules: Rules, source: Record) returns (result: Option<map<string, Scalar>>)
    ensures result == ParseMetadata(rules, Obj(source))
  {
    if |source| > 20 {
      return None;
    }
    var read: map<string, Scalar> := map[];
    var rest := source.Keys;
    while rest != {}
      invariant rest <= source.Keys && read.Keys == source.Keys - rest
      invariant forall name :: name in read ==>
                                 IsMetadataName(rules, name) && ParseScalar(rules, source[name]) == Some(read[name])
    {
      var name :| name in rest;
      var item := ParseScalar(rules, source[name]);
      if !IsMetadataName(rules, name) || item.None? {
        return None;
      }
      read := read[name := item.value];
      rest := rest - {name};
    }
    assert read == map name | name in source :: ParseScalar(rules, source[name]).value;
    return Some(read);
  }

  // --- tasks, steps and phases -------------------------------------------------------------

  // No field but the allowed ones, none of the required ones missing.
  predicate HasFields(v: Json, allowed: set<string>, required: set<string>) {
    v.Obj? && v.fields.Keys <= allowed && required <= v.fields.Keys
  }

  predicate NoRepeats(s: seq<string>): (b: bool)
    ensures b <==> Distinct(s)
  {
    forall i, j :: 0 <= i < j < |s| ==> s[i] != s[j]
  }

  function EncodeOptional(s: Option<string>): Json {
    if s.Some? then Str(s.value) else Null
  }

  predicate IsTask(rules: Rules, t: Task) {
    IsKey(t.hydrationKey) && IsText(rules, t.title, 200) && IsOptionalText(rules, t.description, 4000)
  }

  function ParseTask(rules: Rules, v: Json): Option<Task> {
    if !HasFields(v, TASK_FIELDS, {"hydration_key", "title"}) then None
    else
      var key := ParseKey(Get(v.fields, "hydration_key"));
      var title := ParseText(rules, Get(v.fields, "title"), 200);
      var description := ParseOptionalText(rules, Get(v.fields, "description"), 4000);
      if key.None? || title.None? || description.None? then None
      else Some(Task(key.value, title.value, description.value))
  }

  function EncodeTask(t: Task): Json {
    Obj(map["hydration_key" := Str(t.hydrationKey), "title" := Str(t.title), "description" := EncodeOptional(t.description)])
  }

  function HydrationKeys(tasks: seq<Task>): seq<string> {
    seq(|tasks|, i requires 0 <= i < |tasks| => tasks[i].hydrationKey)
  }

  function TaskParser(rules: Rules): Json -> Option<Task> {
    v => ParseTask(rules, v)
  }

  function TaskWriter(): Task -> Json {
    t => EncodeTask(t)
  }

  function TaskTest(rules: Rules): Task -> bool {
    t => IsTask(rules, t)
  }

  lemma TaskRoundTrip(rules: Rules, t: Task)
    ensures ParseTask(rules, EncodeTask(t)) == if IsTask(rules, t) then Some(t) else None
  {
    assert Get(EncodeTask(t).fields, "hydration_key") == Str(t.hydrationKey);
    assert Get(EncodeTask(t).fields, "title") == Str(t.title);
    assert Get(EncodeTask(t).fields, "description") == EncodeOptional(t.description);
    hide IsKey;
  }

  lemma TasksInverse(rules: Rules)
    ensures Inverse(TaskParser(rules), TaskWriter(), TaskTest(rules))
  {
    forall t {
      TaskRoundTrip(rules, t);
    }
    hide EncodeTask, IsKey;
  }

  function StringParser(rules: Rules, max: nat): Json -> Option<string> {
    v => ParseText(rules, v, max)
  }

  function StringWriter(): string -> Json {
    s => Str(s)
  }

  function StringTest(rules: Rules, max: nat): string -> bool {
    s => IsText(rules, s, max)
  }

  // An item of depends_on: a text of at most 64 characters, then a key.
  function DependencyParser(rules: Rules): Json -> Option<string> {
    v => if ParseText(rules, v, 64).Some? then ParseKey(v) else None
  }

  function DependencyTest(rules: Rules): string -> bool {
    s => IsText(rules, s, 64) && IsKey(s)
  }

  lemma StringsInverse(rules: Rules, max: nat)
    ensures Inverse(StringParser(rules, max), StringWriter(), StringTest(rules, max))
    ensures Inverse(DependencyParser(rules), StringWriter(), DependencyTest(rules))
  {
    hide IsKey;
  }

  predicate IsStep(rules: Rules, s: Step) {
    && IsKey(s.key) && IsText(rules, s.title, 200)
    && IsOptionalText(rules, s.objective, 2000) && IsOptionalText(rules, s.context, 4000)
    && IsOptionalText(rules, s.instructions, 8000) && IsOptionalText(rules, s.notes, 4000)
    && IsList(StringTest(rules, 500), s.acceptanceCriteria, 20)
    && IsList(DependencyTest(rules), s.dependsOn, 20)
    && IsMetadata(rules, s.metadata)
    && IsList(TaskTest(rules), s.tasks, 20) && NoRepeats(HydrationKeys(s.tasks))
  }

  // The fields of a step, each read on its own.
  datatype StepParts = StepParts(
    key: Option<string>,
    title: Option<string>,
    objective: Option<Option<string>>,
    context: Option<Option<string>>,
    instructions: Option<Option<string>>,
    criteria: Option<seq<string>>,
    notes: Option<Option<string>>,
    metadata: Option<map<string, Scalar>>,
    dependsOn: Option<seq<string>>,
    tasks: Option<seq<Task>>)

  function ReadStep(rules: Rules, f: Record): StepParts {
    StepParts(
      ParseKey(Get(f, "key")),
      ParseText(rules, Get(f, "title"), 200),
      ParseOptionalText(rules, Get(f, "objective"), 2000),
      ParseOptionalText(rules, Get(f, "context"), 4000),
      ParseOptionalText(rules, Get(f, "instructions"), 8000),
      ParseList(StringParser(rules, 500), Get(f, "acceptance_criteria"), 20),
      ParseOptionalText(rules, Get(f, "notes"), 4000),
      ParseMetadata(rules, Get(f, "metadata")),
      ParseList(DependencyParser(rules), Get(f, "depends_on"), 20),
      ParseList(TaskParser(rules), Get(f, "tasks"), 20))
  }

  function BuildStep(p: StepParts): Option<Step> {
    if p.key.None? || p.title.None? || p.objective.None? || p.context.None? || p.instructions.None? || p.criteria.None?
       || p.notes.None? || p.metadata.None? || p.dependsOn.None? || p.tasks.None? || !NoRepeats(HydrationKeys(p.tasks.value))
    then None
    else
      Some(Step(p.key.value, p.title.value, p.objective.value, p.context.value, p.instructions.value, p.criteria.value,
                p.notes.value, p.metadata.value, p.dependsOn.value, p.tasks.value))
  }

  function ParseStep(rules: Rules, v: Json): Option<Step> {
    if !HasFields(v, STEP_FIELDS, {"key", "title"}) then None else BuildStep(ReadStep(rules, v.fields))
  }

  function EncodeStep(s: Step): Json {
    Obj(map[
      "key" := Str(s.key),
      "title" := Str(s.title),
      "objective" := EncodeOptional(s.objective),
      "context" := EncodeOptional(s.context),
      "instructions" := EncodeOptional(s.instructions),
      "acceptance_criteria" := Arr(EncodeAll(StringWriter(), s.acceptanceCriteria)),
      "notes" := EncodeOptional(s.notes),
      "metadata" := EncodeMetadata(s.metadata),
      "depends_on" := Arr(EncodeAll(StringWriter(), s.dependsOn)),
      "tasks" := Arr(EncodeAll(TaskWriter(), s.tasks))
    ])
  }

  lemma EncodedStepHas(s: Step)
    ensures EncodeStep(s).Obj?
    ensures var f := EncodeStep(s).fields;
            && f.Keys == STEP_FIELDS && {"key", "title"} <= f.Keys
            && f["key"] == Str(s.key) && f["title"] == Str(s.title)
            && f["objective"] == EncodeOptional(s.objective) && f["context"] == EncodeOptional(s.context)
            && f["instructions"] == EncodeOptional(s.instructions) && f["notes"] == EncodeOptional(s.notes)
            && f["acceptance_criteria"] == Arr(EncodeAll(StringWriter(), s.acceptanceCriteria))
            && f["metadata"] == EncodeMetadata(s.metadata)
            && f["depends_on"] == Arr(EncodeAll(StringWriter(), s.dependsOn))
            && f["tasks"] == Arr(EncodeAll(TaskWriter(), s.tasks))
  {
    hide EncodeOptional, EncodeAll, EncodeMetadata;
  }

  lemma OptionalRoundTrip(rules: Rules, s: Option<string>, max: nat)
    ensures ParseOptionalText(rules, EncodeOptional(s), max) == if IsOptionalText(rules, s, max) then Some(s) else None
  {
  }

  lemma ListRoundTrip<T(!new)>(parse: Json -> Option<T>, encode: T -> Json, good: T -> bool, xs: seq<T>, max: nat)
    requires Inverse(parse, encode, good)
    ensures ParseList(parse, Arr(EncodeAll(encode, xs)), max) == if IsList(good, xs, max) then Some(xs) else None
  {
    AllRoundTrip(parse, encode, good, xs);
  }

  lemma ListIsGood<T(!new)>(parse: Json -> Option<T>, encode: T -> Json, good: T -> bool, v: Json, max: nat)
    requires Inverse(parse, encode, good)
    ensures var xs := ParseList(parse, v, max); xs.Some? ==> IsList(good, xs.value, max)
  {
    if v.Arr? {
      ParsedAreGood(parse, encode, good, v.items);
    }
  }

  function When<T>(b: bool, x: T): Option<T> {
    if b then Some(x) else None
  }

  lemma StepReadsBack(rules: Rules, s: Step)
    ensures ReadStep(rules, EncodeStep(s).fields)
            == StepParts(
                 When(IsKey(s.key), s.key), When(IsText(rules, s.title, 200), s.title),
                 When(IsOptionalText(rules, s.objective, 2000), s.objective),
                 When(IsOptionalText(rules, s.context, 4000), s.context),
                 When(IsOptionalText(rules, s.instructions, 8000), s.instructions),
                 When(IsList(StringTest(rules, 500), s.acceptanceCriteria, 20), s.acceptanceCriteria),
                 When(IsOptionalText(rules, s.notes, 4000), s.notes),
                 When(IsMetadata(rules, s.metadata), s.metadata),
                 When(IsList(DependencyTest(rules), s.dependsOn, 20), s.dependsOn),
                 When(IsList(TaskTest(rules), s.tasks, 20), s.tasks))
  {
    hide EncodeStep, EncodeOptional, EncodeAll, EncodeMetadata, ParseList, ParseMetadata, IsMetadata, IsKey, IsOptionalText, Inverse;
    hide ParseOptionalText, StringTest, DependencyTest, TaskTest, StringParser, DependencyParser, TaskParser, IsList;
    EncodedStepHas(s);
    TasksInverse(rules);
    StringsInverse(rules, 500);
    OptionalRoundTrip(rules, s.objective, 2000);
    OptionalRoundTrip(rules, s.context, 4000);
    OptionalRoundTrip(rules, s.instructions, 8000);
    OptionalRoundTrip(rules, s.notes, 4000);
    MetadataRoundTrip(rules, s.metadata);
    ListRoundTrip(TaskParser(rules), TaskWriter(), TaskTest(rules), s.tasks, 20);
    ListRoundTrip(StringParser(rules, 500), StringWriter(), StringTest(rules, 500), s.acceptanceCriteria, 20);
    ListRoundTrip(DependencyParser(rules), StringWriter(), DependencyTest(rules), s.dependsOn, 20);
  }

  lemma StepRoundTrip(rules: Rules, s: Step)
    ensures ParseStep(rules, EncodeStep(s)) == if IsStep(rules, s) then Some(s) else None
  {
    hide EncodeStep, ReadStep, IsMetadata, IsKey, IsText, IsOptionalText, IsList, NoRepeats, HydrationKeys;
    hide StringTest, DependencyTest, TaskTest;
    EncodedStepHas(s);
    StepReadsBack(rules, s);
  }

  lemma ReadStepIsGood(rules: Rules, f: Record)
    ensures var p := ReadStep(rules, f);
            && (p.key.Some? ==> IsKey(p.key.value)) && (p.title.Some? ==> IsText(rules, p.title.value, 200))
            && (p.objective.Some? ==> IsOptionalText(rules, p.objective.value, 2000))
            && (p.context.Some? ==> IsOptionalText(rules, p.context.value, 4000))
            && (p.instructions.Some? ==> IsOptionalText(rules, p.instructions.value, 8000))
            && (p.criteria.Some? ==> IsList(StringTest(rules, 500), p.criteria.value, 20))
            && (p.notes.Some? ==> IsOptionalText(rules, p.notes.value, 4000))
            && (p.metadata.Some? ==> IsMetadata(rules, p.metadata.value))
            && (p.dependsOn.Some? ==> IsList(DependencyTest(rules), p.dependsOn.value, 20))
            && (p.tasks.Some? ==> IsList(TaskTest(rules), p.tasks.value, 20))
  {
    hide ParseList, ParseMetadata, IsMetadata, IsKey, Inverse, IsList, StringTest, DependencyTest, TaskTest, StringParser, DependencyParser, TaskParser;
    TasksInverse(rules);
    StringsInverse(rules, 500);
    ParsedMetadataIsGood(rules, Get(f, "metadata"));
    ListIsGood(TaskParser(rules), TaskWriter(), TaskTest(rules), Get(f, "tasks"), 20);
    ListIsGood(StringParser(rules, 500), StringWriter(), StringTest(rules, 500), Get(f, "acceptance_criteria"), 20);
    ListIsGood(DependencyParser(rules), StringWriter(), DependencyTest(rules), Get(f, "depends_on"), 20);
  }

  lemma ParsedStepIsGood(rules: Rules, v: Json)
    ensures ParseStep(rules, v).Some? ==> IsStep(rules, ParseStep(rules, v).value)
  {
    hide ReadStep, IsMetadata, IsKey, IsText, IsOptionalText, IsList, NoRepeats, HydrationKeys, StringTest, DependencyTest, TaskTest;
    if v.Obj? {
      ReadStepIsGood(rules, v.fields);
    }
  }

  function StepParser(rules: Rules): Json -> Option<Step> {
    v => ParseStep(rules, v)
  }

  function StepWriter(): Step -> Json {
    s => EncodeStep(s)
  }

  function StepTest(rules: Rules): Step -> bool {
    s => IsStep(rules, s)
  }

  lemma StepsInverse(rules: Rules)
    ensures Inverse(StepParser(rules), StepWriter(), StepTest(rules))
  {
    hide ParseStep, EncodeStep, IsStep;
    forall v {
      ParsedStepIsGood(rules, v);
    }
    forall s {
      StepRoundTrip(rules, s);
    }
  }

  predicate IsPhase(rules: Rules, p: Phase) {
    && IsKey(p.key) && IsText(rules, p.title, 200) && IsOptionalText(rules, p.objective, 2000)
    && IsList(StepTest(rules), p.steps, 50)
  }

  function ParsePhase(rules: Rules, v: Json): Option<Phase> {
    if !HasFields(v, PHASE_FIELDS, {"key", "title"}) then None
    else
      var key, title := ParseKey(Get(v.fields, "key")), ParseText(rules, Get(v.fields, "title"), 200);
      var objective := ParseOptionalText(rules, Get(v.fields, "objective"), 2000);
      var steps := ParseList(StepParser(rules), Get(v.fields, "steps"), 50);
      if key.None? || title.None? || objective.None? || steps.None? then None
      else Some(Phase(key.value, title.value, objective.value, steps.value))
  }

  function EncodePhase(p: Phase): Json {
    Obj(map[
      "key" := Str(p.key),
      "title" := Str(p.title),
      "objective" := EncodeOptional(p.objective),
      "steps" := Arr(EncodeAll(StepWriter(), p.steps))
    ])
  }

  lemma PhaseRoundTrip(rules: Rules, p: Phase)
    ensures ParsePhase(rules, EncodePhase(p)) == if IsPhase(rules, p) then Some(p) else None
  {
    hide EncodeOptional, EncodeAll, ParseList, IsKey, IsOptionalText, ParseOptionalText, StepTest, StepParser, IsList, Inverse;
    StepsInverse(rules);
    OptionalRoundTrip(rules, p.objective, 2000);
    ListRoundTrip(StepParser(rules), StepWriter(), StepTest(rules), p.steps, 50);
  }

  lemma ParsedPhaseIsGood(rules: Rules, v: Json)
    ensures ParsePhase(rules, v).Some? ==> IsPhase(rules, ParsePhase(rules, v).value)
  {
    hide ParseList, IsKey, StepTest, StepParser, IsList, Inverse;
    if v.Obj? {
      StepsInverse(rules);
      ListIsGood(StepParser(rules), StepWriter(), StepTest(rules), Get(v.fields, "steps"), 50);
    }
  }

  function PhaseParser(rules: Rules): Json -> Option<Phase> {
    v => ParsePhase(rules, v)
  }

  function PhaseWriter(): Phase -> Json {
    p => EncodePhase(p)
  }

  function PhaseTest(rules: Rules): Phase -> bool {
    p => IsPhase(rules, p)
  }

  lemma PhasesInverse(rules: Rules)
    ensures Inverse(PhaseParser(rules), PhaseWriter(), PhaseTest(rules))
  {
    hide ParsePhase, EncodePhase, IsPhase;
    forall v {
      ParsedPhaseIsGood(rules, v);
    }
    forall p {
      PhaseRoundTrip(rules, p);
    }
  }

  // --- the document ------------------------------------------------------------------------

  function ParseExportedAt(rules: Rules, v: Json): Option<Option<string>> {
    if v.Null? then Some(None)
    else if v.Str? && rules.timestamp(v.s) then Some(Some(v.s))
    else None
  }

  // Number.isInteger
  function ParseRevision(v: Json): Option<Option<int>> {
    if v.Null? then Some(None)
    else if v.Num? && v.n.Some? && v.n.value.denominator == 1 then Some(Some(v.n.value.numerator))
    else None
  }

  function EncodeRevision(n: Option<int>): Json {
    if n.Some? then Whole(n.value) else Null
  }

  // The limits of every part, the graph apart.
  predicate IsDocument(rules: Rules, d: Document) {
    && IsText(rules, d.title, 200) && IsOptionalText(rules, d.objective, 2000) && IsOptionalText(rules, d.context, 4000)
    && IsMetadata(rules, d.metadata)
    && IsList(PhaseTest(rules), d.phases, 30)
    && (d.exportedAt.Some? ==> rules.timestamp(d.exportedAt.value))
  }

  function ParseDocument(rules: Rules, v: Json): Option<Document> {
    if !HasFields(v, ROOT_FIELDS, {"title"}) || Get(v.fields, "format") !in {Null, Str(FORMAT)} then None
    else
      var f := v.fields;
      var phases := ParseList(PhaseParser(rules), Get(f, "phases"), 30);
      var exportedAt, revisionNo := ParseExportedAt(rules, Get(f, "exported_at")), ParseRevision(Get(f, "revision_no"));
      var title := ParseText(rules, Get(f, "title"), 200);
      var objective := ParseOptionalText(rules, Get(f, "objective"), 2000);
      var context := ParseOptionalText(rules, Get(f, "context"), 4000);
      var metadata := ParseMetadata(rules, Get(f, "metadata"));
      if phases.None? || exportedAt.None? || revisionNo.None? || title.None? || objective.None? || context.None? || metadata.None?
      then None
      else
        Some(Document(title.value, objective.value, context.value, metadata.value, phases.value, exportedAt.value, revisionNo.value))
  }

  function EncodeDocument(d: Document): Json {
    Obj(map[
      "format" := Str(FORMAT),
      "title" := Str(d.title),
      "objective" := EncodeOptional(d.objective),
      "context" := EncodeOptional(d.context),
      "metadata" := EncodeMetadata(d.metadata),
      "phases" := Arr(EncodeAll(PhaseWriter(), d.phases)),
      "exported_at" := EncodeOptional(d.exportedAt),
      "revision_no" := EncodeRevision(d.revisionNo)
    ])
  }

  lemma EncodedDocumentHas(d: Document)
    ensures EncodeDocument(d).Obj?
    ensures var f := EncodeDocument(d).fields;
            && f.Keys == ROOT_FIELDS && {"title"} <= f.Keys
            && f["format"] == Str(FORMAT) && f["title"] == Str(d.title)
            && f["objective"] == EncodeOptional(d.objective) && f["context"] == EncodeOptional(d.context)
            && f["metadata"] == EncodeMetadata(d.metadata)
            && f["phases"] == Arr(EncodeAll(PhaseWriter(), d.phases))
            && f["exported_at"] == EncodeOptional(d.exportedAt) && f["revision_no"] == EncodeRevision(d.revisionNo)
  {
    hide EncodeOptional, EncodeAll, EncodeMetadata, EncodeRevision;
  }

  lemma RevisionRoundTrip(n: Option<int>)
    ensures ParseRevision(EncodeRevision(n)) == Some(n)
  {
  }

  lemma ExportedAtRoundTrip(rules: Rules, s: Option<string>)
    ensures ParseExportedAt(rules, EncodeOptional(s)) == if s.Some? ==> rules.timestamp(s.value) then Some(s) else None
  {
  }

  lemma DocumentRoundTrip(rules: Rules, d: Document)
    ensures ParseDocument(rules, EncodeDocument(d)) == if IsDocument(rules, d) then Some(d) else None
  {
    hide EncodeDocument, EncodeOptional, EncodeAll, EncodeMetadata, EncodeRevision, ParseList, ParseMetadata, IsMetadata, IsOptionalText, Inverse;
    hide ParseOptionalText, ParseRevision, ParseExportedAt, PhaseTest, PhaseParser, IsList;
    EncodedDocumentHas(d);
    PhasesInverse(rules);
    OptionalRoundTrip(rules, d.objective, 2000);
    OptionalRoundTrip(rules, d.context, 4000);
    MetadataRoundTrip(rules, d.metadata);
    RevisionRoundTrip(d.revisionNo);
    ExportedAtRoundTrip(rules, d.exportedAt);
    ListRoundTrip(PhaseParser(rules), PhaseWriter(), PhaseTest(rules), d.phases, 30);
  }

  lemma ParsedDocumentIsGood(rules: Rules, v: Json)
    ensures ParseDocument(rules, v).Some? ==> IsDocument(rules, ParseDocument(rules, v).value)
  {
    hide ParseList, ParseMetadata, IsMetadata, PhaseTest, PhaseParser, IsList, Inverse, ParseRevision;
    if v.Obj? {
      PhasesInverse(rules);
      ParsedMetadataIsGood(rules, Get(v.fields, "metadata"));
      ListIsGood(PhaseParser(rules), PhaseWriter(), PhaseTest(rules), Get(v.fields, "phases"), 30);
    }
  }

  // --- validation -----------------------------------------------------------------------------

  ghost predicate Acceptable(rules: Rules, d: Document) {
    IsDocument(rules, d) && WellPlaced(d.phases)
  }

  // validateRoadmapDocument
  method Validate(rules: Rules, v: Json) returns (r: Option<Document>)
    ensures r == Validated(rules, v)
  {
    hide WellPlaced, Explains, ParseDocument;
    r := ParseDocument(rules, v);
    if r.Some? {
      var failure := ValidateGraph(r.value.phases);
      if failure.Some? {
        r := None;
      }
    }
  }

  ghost function Validated(rules: Rules, v: Json): Option<Document> {
    var d := ParseDocument(rules, v);
    if d.Some? && WellPlaced(d.value.phases) then d else None
  }

  // Validation accepts exactly the encodings of the documents within the limits
  // whose graph is accepted, returns them unchanged, and never returns another.
  lemma ValidationIsExact(rules: Rules, v: Json, d: Document)
    ensures Validated(rules, EncodeDocument(d)) == if Acceptable(rules, d) then Some(d) else None
    ensures Validated(rules, v).Some? ==> Acceptable(rules, Validated(rules, v).value)
    ensures Validated(rules, v).Some? ==>
              Validated(rules, EncodeDocument(Validated(rules, v).value)) == Validated(rules, v)
  {
    hide ParseDocument, EncodeDocument, IsDocument, WellPlaced;
    DocumentRoundTrip(rules, d);
    ParsedDocumentIsGood(rules, v);
    if Validated(rules, v).Some? {
      DocumentRoundTrip(rules, Validated(rules, v).value);
    }
  }

  // --- texts, keys and names, character by character ---------------------------------------

  lemma ParseTextExactly(rules: Rules, v: Json, s: string, max: nat)
    ensures ParseText(rules, v, max) == Some(s) <==> v == Str(s) && s != "" && |s| <= max && !rules.privatePath(s)
  {
  }

  // The letters and digits, one by one.
  predicate Listed(c: char) {
    || c in "ABCDEFGHIJKLM" || c in "NOPQRSTUVWXYZ"
    || c in "abcdefghijklm" || c in "nopqrstuvwxyz"
    || c in "0123456789"
  }

  lemma AlphanumericExactly(c: char)
    ensures IsAlphanumeric(c) <==> Listed(c)
  {
    ListedHolds(c);
  }

  lemma ListedHolds(c: char)
    ensures IsAlphanumeric(c) ==> Listed(c)
  {
    if 'A' <= c <= 'M' {
      assert "ABCDEFGHIJKLM"[c as int - 'A' as int] == c;
    } else if 'N' <= c <= 'Z' {
      assert "NOPQRSTUVWXYZ"[c as int - 'N' as int] == c;
    } else if 'a' <= c <= 'm' {
      assert "abcdefghijklm"[c as int - 'a' as int] == c;
    } else if 'n' <= c <= 'z' {
      assert "nopqrstuvwxyz"[c as int - 'n' as int] == c;
    } else if '0' <= c <= '9' {
      assert "0123456789"[c as int - '0' as int] == c;
    }
  }

  // One letter or digit, and up to 63 letters, digits, dots, underscores and hyphens.
  lemma ParseKeyExactly(v: Json, s: string)
    ensures ParseKey(v) == Some(s) <==>
              && v == Str(s) && s != "" && |s| <= 64 && Listed(s[0])
              && forall i :: 0 <= i < |s| ==> Listed(s[i]) || s[i] == '.' || s[i] == '_' || s[i] == '-'
  {
    forall c { AlphanumericExactly(c); }
    hide IsAlphanumeric, Listed;
    assert forall i :: 0 <= i < |s| ==> s[i] in s;
  }

  // Metadata: at most twenty entries with names that do not look secret and texts
  // that are short and no private path.
  lemma MetadataExactly(rules: Rules, m: map<string, Scalar>)
    ensures IsMetadata(rules, m) <==>
              && |m| <= 20
              && (forall name :: name in m ==> name != "" && |name| <= 64 && !rules.secretKey(name))
              && (forall name, t :: name in m && m[name] == Text(t) ==> |t| <= 500 && !rules.privatePath(t))
  {
  }

  // --- every accepted text, not only the encodings ------------------------------------------

  predicate OnlyFields(v: Json, names: set<string>) {
    v.Obj? && v.fields.Keys <= names
  }

  // A list may be left out when it is empty.
  predicate WritesList<T>(v: Json, xs: seq<T>, writes: (Json, T) -> bool) {
    if v.Null? then |xs| == 0
    else v.Arr? && |v.items| == |xs| && forall i :: 0 <= i < |xs| ==> writes(v.items[i], xs[i])
  }

  predicate WritesMetadata(v: Json, m: map<string, Scalar>) {
    (v.Null? && m == map[]) || v == EncodeMetadata(m)
  }

  predicate WritesString(v: Json, s: string) {
    v == Str(s)
  }

  predicate WritesTask(v: Json, t: Task) {
    && OnlyFields(v, {"hydration_key", "title", "description"})
    && Get(v.fields, "hydration_key") == Str(t.hydrationKey)
    && Get(v.fields, "title") == Str(t.title)
    && Get(v.fields, "description") == EncodeOptional(t.description)
  }

  predicate WritesStep(v: Json, s: Step) {
    && OnlyFields(v, {"key", "title", "objective", "context", "instructions", "acceptance_criteria", "notes", "metadata", "depends_on", "tasks"})
    && Get(v.fields, "key") == Str(s.key) && Get(v.fields, "title") == Str(s.title)
    && Get(v.fields, "objective") == EncodeOptional(s.objective) && Get(v.fields, "context") == EncodeOptional(s.context)
    && Get(v.fields, "instructions") == EncodeOptional(s.instructions) && Get(v.fields, "notes") == EncodeOptional(s.notes)
    && WritesList(Get(v.fields, "acceptance_criteria"), s.acceptanceCriteria, StringWrites())
    && WritesMetadata(Get(v.fields, "metadata"), s.metadata)
    && WritesList(Get(v.fields, "depends_on"), s.dependsOn, StringWrites())
    && WritesList(Get(v.fields, "tasks"), s.tasks, TaskWrites())
  }

  predicate WritesPhase(v: Json, p: Phase) {
    && OnlyFields(v, {"key", "title", "objective", "steps"})
    && Get(v.fields, "key") == Str(p.key) && Get(v.fields, "title") == Str(p.title)
    && Get(v.fields, "objective") == EncodeOptional(p.objective)
    && WritesList(Get(v.fields, "steps"), p.steps, StepWrites())
  }

  // The JSON values that write a document: no field but its own, optional fields
  // null or left out, no list or metadata where there is none.
  predicate Writes(v: Json, d: Document) {
    && OnlyFields(v, {"format", "title", "objective", "context", "metadata", "phases", "exported_at", "revision_no"})
    && (Get(v.fields, "format") == Null || Get(v.fields, "format") == Str("studio.roadmap/v1"))
    && Get(v.fields, "title") == Str(d.title)
    && Get(v.fields, "objective") == EncodeOptional(d.objective) && Get(v.fields, "context") == EncodeOptional(d.context)
    && WritesMetadata(Get(v.fields, "metadata"), d.metadata)
    && WritesList(Get(v.fields, "phases"), d.phases, PhaseWrites())
    && Get(v.fields, "exported_at") == EncodeOptional(d.exportedAt)
    && Get(v.fields, "revision_no") == EncodeRevision(d.revisionNo)
  }

  function StringWrites(): (Json, string) -> bool {
    (v, s) => WritesString(v, s)
  }

  function TaskWrites(): (Json, Task) -> bool {
    (v, t) => WritesTask(v, t)
  }

  function StepWrites(): (Json, Step) -> bool {
    (v, s) => WritesStep(v, s)
  }

  function PhaseWrites(): (Json, Phase) -> bool {
    (v, p) => WritesPhase(v, p)
  }

  // `parse` reads `x` from exactly the values that write it, if it is good.
  ghost predicate Exact<T(!new)>(parse: Json -> Option<T>, writes: (Json, T) -> bool, good: T -> bool) {
    forall v, x :: parse(v) == Some(x) <==> good(x) && writes(v, x)
  }

  lemma {:induction false} ParseAllExactly<T(!new)>(
      parse: Json -> Option<T>, writes: (Json, T) -> bool, good: T -> bool, items: seq<Json>, xs: seq<T>)
    requires Exact(parse, writes, good)
    ensures ParseAll(parse, items) == Some(xs)
            <==> |items| == |xs| && AllGood(good, xs) && forall i :: 0 <= i < |xs| ==> writes(items[i], xs[i])
    decreases |items|
  {
    if items != [] && xs != [] {
      var n, m := |items| - 1, |xs| - 1;
      ParseAllExactly(parse, writes, good, items[..n], xs[..m]);
      assert xs == xs[..m] + [xs[m]];
      assert parse(items[n]) == Some(xs[m]) <==> good(xs[m]) && writes(items[n], xs[m]);
    }
  }

  lemma ParseListExactly<T(!new)>(
      parse: Json -> Option<T>, writes: (Json, T) -> bool, good: T -> bool, v: Json, xs: seq<T>, max: nat)
    requires Exact(parse, writes, good)
    ensures ParseList(parse, v, max) == Some(xs) <==> IsList(good, xs, max) && WritesList(v, xs, writes)
  {
    if v.Arr? {
      ParseAllExactly(parse, writes, good, v.items, xs);
    }
  }

  lemma ParseScalarExactly(rules: Rules, v: Json, s: Scalar)
    ensures ParseScalar(rules, v) == Some(s) <==> IsScalar(rules, s) && v == EncodeScalar(s)
  {
  }

  lemma ParseMetadataExactly(rules: Rules, v: Json, m: map<string, Scalar>)
    ensures ParseMetadata(rules, v) == Some(m) <==> IsMetadata(rules, m) && WritesMetadata(v, m)
  {
    hide IsMetadataName;
    MetadataRoundTrip(rules, m);
    ParsedMetadataIsGood(rules, v);
    var read := ParseMetadata(rules, v);
    if v.Obj? && read.Some? {
      forall name | name in v.fields
        ensures v.fields[name] == EncodeScalar(read.value[name])
      {
        ParseScalarExactly(rules, v.fields[name], read.value[name]);
      }
      assert v.fields == EncodeMetadata(read.value).fields;
    }
  }

  lemma ParseOptionalExactly(rules: Rules, v: Json, s: Option<string>, max: nat)
    ensures ParseOptionalText(rules, v, max) == Some(s) <==> IsOptionalText(rules, s, max) && v == EncodeOptional(s)
  {
  }

  lemma ParseTaskExactly(rules: Rules, v: Json, t: Task)
    ensures ParseTask(rules, v) == Some(t) <==> IsTask(rules, t) && WritesTask(v, t)
  {
    hide IsKey, ParseOptionalText, IsOptionalText, EncodeOptional;
    if v.Obj? {
      ParseOptionalExactly(rules, Get(v.fields, "description"), t.description, 4000);
    }
  }

  lemma ParseStepExactly(rules: Rules, v: Json, s: Step)
    ensures ParseStep(rules, v) == Some(s) <==> IsStep(rules, s) && WritesStep(v, s)
  {
    hide IsKey, ParseOptionalText, IsOptionalText, EncodeOptional, ParseMetadata, IsMetadata, WritesMetadata, ParseList, IsList, WritesList;
    hide IsText, NoRepeats, HydrationKeys, StringTest, DependencyTest, TaskTest, StringParser, DependencyParser, TaskParser;
    hide StringWrites, TaskWrites;
    if v.Obj? {
      StepPartsExactly(rules, v.fields, s);
    }
  }

  lemma StepPartsExactly(rules: Rules, f: Record, s: Step)
    ensures ParseOptionalText(rules, Get(f, "objective"), 2000) == Some(s.objective)
            <==> IsOptionalText(rules, s.objective, 2000) && Get(f, "objective") == EncodeOptional(s.objective)
    ensures ParseOptionalText(rules, Get(f, "context"), 4000) == Some(s.context)
            <==> IsOptionalText(rules, s.context, 4000) && Get(f, "context") == EncodeOptional(s.context)
    ensures ParseOptionalText(rules, Get(f, "instructions"), 8000) == Some(s.instructions)
            <==> IsOptionalText(rules, s.instructions, 8000) && Get(f, "instructions") == EncodeOptional(s.instructions)
    ensures ParseOptionalText(rules, Get(f, "notes"), 4000) == Some(s.notes)
            <==> IsOptionalText(rules, s.notes, 4000) && Get(f, "notes") == EncodeOptional(s.notes)
    ensures ParseMetadata(rules, Get(f, "metadata")) == Some(s.metadata)
            <==> IsMetadata(rules, s.metadata) && WritesMetadata(Get(f, "metadata"), s.metadata)
    ensures ParseList(StringParser(rules, 500), Get(f, "acceptance_criteria"), 20) == Some(s.acceptanceCriteria)
            <==> IsList(StringTest(rules, 500), s.acceptanceCriteria, 20)
                 && WritesList(Get(f, "acceptance_criteria"), s.acceptanceCriteria, StringWrites())
    ensures ParseList(DependencyParser(rules), Get(f, "depends_on"), 20) == Some(s.dependsOn)
            <==> IsList(DependencyTest(rules), s.dependsOn, 20) && WritesList(Get(f, "depends_on"), s.dependsOn, StringWrites())
    ensures ParseList(TaskParser(rules), Get(f, "tasks"), 20) == Some(s.tasks)
            <==> IsList(TaskTest(rules), s.tasks, 20) && WritesList(Get(f, "tasks"), s.tasks, TaskWrites())
  {
    ParseOptionalExactly(rules, Get(f, "objective"), s.objective, 2000);
    ParseOptionalExactly(rules, Get(f, "context"), s.context, 4000);
    ParseOptionalExactly(rules, Get(f, "instructions"), s.instructions, 8000);
    ParseOptionalExactly(rules, Get(f, "notes"), s.notes, 4000);
    ParseMetadataExactly(rules, Get(f, "metadata"), s.metadata);
    StringsExact(rules);
    TasksExact(rules);
    hide *;
    ParseListExactly(StringParser(rules, 500), StringWrites(), StringTest(rules, 500), Get(f, "acceptance_criteria"), s.acceptanceCriteria, 20);
    ParseListExactly(DependencyParser(rules), StringWrites(), DependencyTest(rules), Get(f, "depends_on"), s.dependsOn, 20);
    ParseListExactly(TaskParser(rules), TaskWrites(), TaskTest(rules), Get(f, "tasks"), s.tasks, 20);
  }

  lemma StringsExact(rules: Rules)
    ensures Exact(StringParser(rules, 500), StringWrites(), StringTest(rules, 500))
    ensures Exact(DependencyParser(rules), StringWrites(), DependencyTest(rules))
  {
    hide IsKey;
  }

  lemma TasksExact(rules: Rules)
    ensures Exact(TaskParser(rules), TaskWrites(), TaskTest(rules))
  {
    hide ParseTask, IsTask, WritesTask;
    forall v, t {
      ParseTaskExactly(rules, v, t);
    }
  }

  lemma StepsExact(rules: Rules)
    ensures Exact(StepParser(rules), StepWrites(), StepTest(rules))
  {
    hide ParseStep, IsStep, WritesStep;
    forall v, s {
      ParseStepExactly(rules, v, s);
    }
  }

  lemma ParsePhaseExactly(rules: Rules, v: Json, p: Phase)
    ensures ParsePhase(rules, v) == Some(p) <==> IsPhase(rules, p) && WritesPhase(v, p)
  {
    hide IsKey, ParseOptionalText, IsOptionalText, EncodeOptional, ParseList, IsList, WritesList, StepTest, StepParser, StepWrites, Exact, IsText;
    if v.Obj? {
      StepsExact(rules);
      ParseOptionalExactly(rules, Get(v.fields, "objective"), p.objective, 2000);
      ParseListExactly(StepParser(rules), StepWrites(), StepTest(rules), Get(v.fields, "steps"), p.steps, 50);
    }
  }

  lemma PhasesExact(rules: Rules)
    ensures Exact(PhaseParser(rules), PhaseWrites(), PhaseTest(rules))
  {
    hide ParsePhase, IsPhase, WritesPhase;
    forall v, p {
      ParsePhaseExactly(rules, v, p);
    }
  }

  lemma ParseExportedAtExactly(rules: Rules, v: Json, s: Option<string>)
    ensures ParseExportedAt(rules, v) == Some(s) <==> (s.Some? ==> rules.timestamp(s.value)) && v == EncodeOptional(s)
  {
  }

  lemma ParseRevisionExactly(v: Json, n: Option<int>)
    ensures ParseRevision(v) == Some(n) <==> v == EncodeRevision(n)
  {
  }

  lemma ParseDocumentExactly(rules: Rules, v: Json, d: Document)
    ensures ParseDocument(rules, v) == Some(d) <==> IsDocument(rules, d) && Writes(v, d)
  {
    hide ParseOptionalText, IsOptionalText, EncodeOptional, ParseMetadata, IsMetadata, WritesMetadata, ParseList, IsList, WritesList;
    hide IsText, PhaseTest, PhaseParser, PhaseWrites, Exact, ParseExportedAt, ParseRevision, EncodeRevision;
    if v.Obj? {
      var f := v.fields;
      PhasesExact(rules);
      ParseOptionalExactly(rules, Get(f, "objective"), d.objective, 2000);
      ParseOptionalExactly(rules, Get(f, "context"), d.context, 4000);
      ParseMetadataExactly(rules, Get(f, "metadata"), d.metadata);
      ParseListExactly(PhaseParser(rules), PhaseWrites(), PhaseTest(rules), Get(f, "phases"), d.phases, 30);
      ParseExportedAtExactly(rules, Get(f, "exported_at"), d.exportedAt);
      ParseRevisionExactly(Get(f, "revision_no"), d.revisionNo);
    }
  }

  // A JSON value is accepted as a document exactly when it writes it and the
  // document is within the limits with its graph in order.
  lemma AcceptedExactlyWhenWritten(rules: Rules, v: Json, d: Document)
    ensures Validated(rules, v) == Some(d) <==> Acceptable(rules, d) && Writes(v, d)
  {
    hide ParseDocument, IsDocument, Writes, WellPlaced;
    ParseDocumentExactly(rules, v, d);
  }
}
