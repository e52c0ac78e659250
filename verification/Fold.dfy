/**
 The fold of one event into a run's state, as a function: the specification RunState.Apply meets, and
 the object the whole-run theorems are about.
 */
module Fold {
  import opened Wrappers
  import opened Events

  const OP_BREAKPOINT_CLEAR := "breakpoint.clear"
  const OP_RUN_PAUSE := "run.pause"
  const OP_RUN_RESUME := "run.resume"
  const RELEASED_BREAKPOINT := "breakpoint"
  const STATE_SUCCEEDED := "succeeded"
  const STATE_FAILED := "failed"
  const STATE_PANICKED := "panicked"

  // ----- steps -----

  /** The record of a step, fresh when the stream never announced it. */
  function StepOf(s: State, id: string): StepState {
    if id != "" && id in s.steps then s.steps[id]
    else FreshStep(id)
  }

  /** Stores a step record, appending to the order on first mention; an empty id is stored nowhere. */
  function Put(s: State, id: string, st: StepState): State {
    if id == "" then s
    else s.(steps := s.steps[id := st], order := if id in s.steps then s.order else s.order + [id])
  }

  /** A payload whose effect is on the record of the envelope's step and nothing else. */
  predicate StepScoped(p: Payload) {
    || p.StepCreated? || p.StepStarted? || p.StepFinished? || p.StepRetried? || p.TestFinished?
    || p.StepLogAppended? || p.CacheHit? || p.BreakpointHit? || p.ServiceReady?
  }

  // ----- tests -----

  predicate IsTest(t: TestResult, suite: string, name: string) {
    t.suite == suite && t.name == name
  }

  /** The position of the first result for a test, or |tests|. */
  function TestIndex(tests: seq<TestResult>, suite: string, name: string): (i: nat)
    ensures i <= |tests|
    ensures i < |tests| ==> IsTest(tests[i], suite, name)
    ensures forall j :: 0 <= j < i ==> !IsTest(tests[j], suite, name)
  {
    if tests == [] then 0
    else if IsTest(tests[0], suite, name) then 0
    else 1 + TestIndex(tests[1..], suite, name)
  }

  function FindTest(tests: seq<TestResult>, suite: string, name: string): Option<TestResult> {
    var i := TestIndex(tests, suite, name);
    if i < |tests| then Some(tests[i]) else None
  }

  /** The verdict a test holds after one more report, given what it held before. */
  function Verdict(existing: Option<TestResult>, outcome: Outcome, attempt: int): Outcome {
    if existing.Some? && outcome == Passed &&
       (existing.value.outcome == Recovered || (existing.value.outcome == Failed && attempt > existing.value.attempt))
    then Recovered
    else outcome
  }

  /** A failure is not undone by a later verdict of the same attempt. */
  predicate KeepsFailure(existing: Option<TestResult>, outcome: Outcome, attempt: int) {
    existing.Some? && existing.value.attempt == attempt && existing.value.outcome == Failed && outcome != Failed
  }

  function ReportTest(tests: seq<TestResult>, p: Payload, attempt: int): seq<TestResult>
    requires p.TestFinished?
  {
    var existing := FindTest(tests, p.suite, p.name);
    if KeepsFailure(existing, p.outcome, attempt) then tests
    else
      var r := TestResult(p.name, p.suite, Verdict(existing, p.outcome, attempt), p.duration, attempt,
                          p.output, p.file, p.line);
      var i := TestIndex(tests, p.suite, p.name);
      if i < |tests| then tests[i := r] else tests + [r]
  }

  function LoggedBytes(st: StepState, stream: string): int {
    if stream in st.logBytes then st.logBytes[stream] else 0
  }

  /** The effect of a step-scoped event on its step's record. */
  function OnStep(st: StepState, e: Event): StepState
    requires StepScoped(e.payload)
  {
    match e.payload
    case StepCreated(kind, needs, service, group) =>
      st.(kind := kind, needs := needs, isService := service,
      group := if group != "" then group else if e.group != "" then e.group else st.group)
    case StepStarted =>
      st.(started := e.ts, finished := ZERO_TIME, state := "", exitCode := 0, error := "", paused := false,
      held := "", attempt := if e.attempt > st.attempt then e.attempt else st.attempt)
    case StepFinished(state, exitCode, error, usage, wasCached) =>
      st.(state := state, exitCode := exitCode, error := error, finished := e.ts, paused := false, held := "",
      usage := usage, cached := wasCached || st.cached)
    case StepRetried(attempt) =>
      st.(attempt := attempt, state := "", started := ZERO_TIME, finished := ZERO_TIME, exitCode := 0, error := "",
      paused := false, held := "", service := None, usage := None, logBytes := map[])
    case TestFinished(_, _, _, _, _, _, _) =>
      st.(tests := ReportTest(st.tests, e.payload, e.attempt))
    case StepLogAppended(stream, offset, len) =>
      var mark := if LoggedBytes(st, stream) < offset + len then offset + len else LoggedBytes(st, stream);
      st.(logBytes := st.logBytes[stream := mark])
    case CacheHit =>
      st.(cached := true)
    case BreakpointHit(reason) =>
      st.(paused := true, held := reason)
    case ServiceReady(endpoints) =>
      st.(service := Some(ServiceState(e.ts, endpoints)))
  }

  // ----- the other events -----

  /** Materialises an expansion's children in turn, each labelled with its group. */
  function AddChildren(s: State, children: seq<string>, group: string): State {
    if children == [] then s
    else
      var k := |children| - 1;
      var s' := AddChildren(s, children[..k], group);
      Put(s', children[k], StepOf(s', children[k]).(group := group))
  }

  function Arg(args: map<string, string>, key: string): string {
    if key in args then args[key] else ""
  }

  function ApplyControl(s: State, op: string, args: map<string, string>): State {
    if op == OP_BREAKPOINT_CLEAR then
      var id := Arg(args, "step");
      if id in s.steps && !(Arg(args, "released") == RELEASED_BREAKPOINT && s.steps[id].held != "") then
        s.(steps := s.steps[id := s.steps[id].(paused := false, held := "")])
      else s
    else if op == OP_RUN_PAUSE then s.(run := s.run.(paused := true))
    else if op == OP_RUN_RESUME then s.(run := s.run.(paused := false))
    else s
  }

  function OnHandler(h: HandlerState, e: Event): HandlerState
    requires e.payload.Handler?
  {
    var p := e.payload;
    var h' := if p.handlerKind != "" then h.(kind := p.handlerKind) else h;
    match p.phase
    case HandlerStarted => h'.(started := e.ts)
    case HandlerSucceeded => h'.(state := STATE_SUCCEEDED, finished := e.ts)
    case HandlerFailed =>
      h'.(state := if p.panicked then STATE_PANICKED else STATE_FAILED, finished := e.ts, error := p.handlerError)
  }

  /** Records a handler, linking it to its parent step the first time the stream mentions it. */
  function ApplyHandler(s: State, e: Event): State
    requires e.payload.Handler?
  {
    var id, parent := e.step, e.payload.handlerParent;
    if id == "" then s
    else if id in s.handlers then s.(handlers := s.handlers[id := OnHandler(s.handlers[id], e)])
    else
      var s' := s.(handlers := s.handlers[id := OnHandler(FreshHandler(id, parent), e)]);
      if parent == "" then s'
      else
        var st := StepOf(s', parent);
        Put(s', parent, st.(handlers := st.handlers + [id]))
  }

  function Dispatch(s: State, e: Event): State {
    match e.payload
    case RunStarted(pipeline, engineVersion, planDigest, startedAt) =>
      s.(run := s.run.(id := e.run, pipeline := pipeline, engineVersion := engineVersion, planDigest := planDigest,
      started := startedAt))
    case RunFinished(status, cleanupAbandoned) =>
      s.(run := s.run.(status := status, finished := e.ts, done := true, cleanupAbandoned := cleanupAbandoned,
      paused := false))
    case PlanResolved(digest) =>
      s.(run := s.run.(planDigest := digest))
    case PlanExpanded(parent, children, count, skipped) =>
      AddChildren(s.(expansions := s.expansions[parent := ExpansionState(parent, children, count, skipped)]),
                  children, parent)
    case PlanGenerated(generator, children, nodes) =>
      AddChildren(s.(expansions := s.expansions[generator := ExpansionState(generator, children, nodes, 0)]),
                  children, generator)
    case ControlApplied(op, args) => ApplyControl(s, op, args)
    case Handler(_, _, _, _, _) => ApplyHandler(s, e)
    case Undecodable => s
    case Unhandled => s
    case _ => Put(s, e.step, OnStep(StepOf(s, e.step), e))
  }

  /** Every accepted event advances the sequence number and seeds the run id. */
  function Admit(s: State, e: Event): State {
    s.(seqNo := if e.seqNo > s.seqNo then e.seqNo else s.seqNo,
    run := if s.run.id == "" && e.run != "" then s.run.(id := e.run) else s.run)
  }

  function SeedStep(st: StepState, e: Event): StepState {
    if e.attempt > 0 && e.attempt > st.attempt then st.(attempt := e.attempt) else st
  }

  /** The attempt rides every step-scoped envelope; seeding it never creates a step. */
  function Seed(s: State, e: Event): State {
    if e.step != "" && e.step in s.steps then s.(steps := s.steps[e.step := SeedStep(s.steps[e.step], e)]) else s
  }

  predicate Accepts(s: State, e: Event) {
    e.seqNo >= s.seqNo
  }

  /** The state after an event: unchanged by a regressing sequence number, and stopped short by a bad payload. */
  function Next(s: State, e: Event): State {
    if !Accepts(s, e) then s
    else if e.payload.Undecodable? then Admit(s, e)
    else Seed(Dispatch(Admit(s, e), e), e)
  }

  /** The state after a whole stream. */
  function Run(s: State, es: seq<Event>): State {
    if es == [] then s else Next(Run(s, es[..|es| - 1]), es[|es| - 1])
  }
}
