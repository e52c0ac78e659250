/** Run events as a client decodes them, and the records a run folds into. */
module Events {
  import opened Wrappers

  /** Timestamps are opaque; ZERO_TIME is Go's zero time, read as "not yet". */
  type Time = int
  const ZERO_TIME: Time := 0

  datatype Outcome = Passed | Failed | Skipped | Recovered | OtherOutcome(text: string)

  datatype Usage = Usage(cpuUser: int, cpuSystem: int, maxRss: int)

  datatype Phase = HandlerStarted | HandlerSucceeded | HandlerFailed

  /** The event types the fold handles, each with the payload fields it reads. */
  datatype Payload =
    | RunStarted(pipeline: string, engineVersion: string, planDigest: string, startedAt: Time)
    | RunFinished(status: string, cleanupAbandoned: bool)
    | PlanResolved(digest: string)
    | PlanExpanded(parent: string, children: seq<string>, count: int, skipped: int)
    | PlanGenerated(generator: string, children: seq<string>, nodes: int)
    | StepCreated(kind: string, needs: seq<string>, service: bool, group: string)
    | StepStarted
    | StepFinished(state: string, exitCode: int, error: string, usage: Option<Usage>, wasCached: bool)
    | StepRetried(attempt: int)
    | TestFinished(suite: string, name: string, outcome: Outcome, duration: int, output: string, file: string, line: int)
    | StepLogAppended(stream: string, offset: int, len: int)
    | CacheHit
    | BreakpointHit(reason: string)
    | ServiceReady(endpoints: seq<string>)
    | ControlApplied(op: string, args: map<string, string>)
    | Handler(phase: Phase, handlerParent: string, handlerKind: string, panicked: bool, handlerError: string)
    | Undecodable  // a handled type whose payload does not decode
    | Unhandled    // every other type, known or not

  datatype Event = Event(
    seqNo: nat, run: string, ts: Time, step: string, group: string, attempt: int, payload: Payload)

  // ----- records -----

  datatype RunInfo = RunInfo(
    id: string, pipeline: string, engineVersion: string, planDigest: string, status: string,
    started: Time, finished: Time, done: bool, paused: bool, cleanupAbandoned: bool)

  datatype TestResult = TestResult(
    name: string, suite: string, outcome: Outcome, duration: int, attempt: int,
    output: string, file: string, line: int)

  datatype ServiceState = ServiceState(ready: Time, endpoints: seq<string>)

  datatype StepState = StepState(
    id: string, kind: string, group: string, state: string, attempt: int, started: Time, finished: Time,
    exitCode: int, cached: bool, error: string, needs: seq<string>, paused: bool, logBytes: map<string, int>,
    handlers: seq<string>, tests: seq<TestResult>, isService: bool, service: Option<ServiceState>,
    held: string, usage: Option<Usage>)

  datatype HandlerState = HandlerState(
    id: string, parent: string, kind: string, state: string, started: Time, finished: Time, error: string)

  datatype ExpansionState = ExpansionState(parent: string, children: seq<string>, count: int, skipped: int)

  datatype State = State(
    seqNo: nat, run: RunInfo, steps: map<string, StepState>, expansions: map<string, ExpansionState>,
    handlers: map<string, HandlerState>, order: seq<string>)

  const EMPTY_RUN := RunInfo("", "", "", "", "", ZERO_TIME, ZERO_TIME, false, false, false)

  /** What NewRunState returns. */
  const EMPTY_STATE := State(0, EMPTY_RUN, map[], map[], map[], [])

  function FreshStep(id: string): StepState {
    StepState(id, "", "", "", 0, ZERO_TIME, ZERO_TIME, 0, false, "", [], false, map[], [], [], false, None, "", None)
  }

  function FreshHandler(id: string, parent: string): HandlerState {
    HandlerState(id, parent, "", "", ZERO_TIME, ZERO_TIME, "")
  }
}
