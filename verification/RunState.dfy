/** RunState as clients hold it: Apply updates its fields in place. */
module RunStates {
  import opened Wrappers
  import opened Events
  import opened Fold

  datatype ApplyError = OutOfOrder | BadPayload

  class RunState {
    var seqNo: nat
    var run: RunInfo
    var steps: map<string, StepState>
    var expansions: map<string, ExpansionState>
    var handlers: map<string, HandlerState>
    var order: seq<string>

    constructor ()
      ensures Abs() == EMPTY_STATE
    {
      seqNo, run, steps, expansions, handlers, order := 0, EMPTY_RUN, map[], map[], map[], [];
    }

    ghost function Abs(): State
      reads this
    {
      State(seqNo, run, steps, expansions, handlers, order)
    }

    /** The step's record, created when the stream never announced it; an empty id is not stored. */
    method Step(id: string) returns (st: StepState)
      modifies this`steps, this`order
      ensures st == StepOf(old(Abs()), id)
      ensures id != "" && id !in old(steps) ==> Abs() == Put(old(Abs()), id, FreshStep(id))
      ensures id == "" || id in old(steps) ==> Abs() == old(Abs())
    {
      if id == "" { return FreshStep(""); }
      if id in steps { return steps[id]; }
      st := FreshStep(id);
      steps := steps[id := st];
      order := order + [id];
    }

    /** Writes a record back through the pointer Step returned. */
    method Store(id: string, st: StepState)
      requires id != "" ==> id in steps
      modifies this`steps
      ensures steps == if id == "" then old(steps) else old(steps)[id := st]
    {
      if id != "" { steps := steps[id := st]; }
    }

    /** The step's result for a test, by position. */
    method Test(tests: seq<TestResult>, suite: string, name: string) returns (i: nat)
      ensures i == TestIndex(tests, suite, name)
    {
      i := 0;
      while i < |tests|
        invariant i <= |tests|
        invariant forall j :: 0 <= j < i ==> !IsTest(tests[j], suite, name)
      {
        if IsTest(tests[i], suite, name) { break; }
        i := i + 1;
      }
      var k := TestIndex(tests, suite, name);
      assert !(k < i) && !(i < k);
    }

    method Children(ids: seq<string>, group: string)
      modifies this`steps, this`order
      ensures Abs() == AddChildren(old(Abs()), ids, group)
    {
      for k := 0 to |ids|
        invariant Abs() == AddChildren(old(Abs()), ids[..k], group)
      {
        assert ids[..k + 1][..k] == ids[..k];
        ghost var before := Abs();
        var st := Step(ids[k]);
        Store(ids[k], st.(group := group));
        assert Abs() == Put(before, ids[k], StepOf(before, ids[k]).(group := group));
      }
      assert ids[..|ids|] == ids;
    }

    method ApplyTest(st: StepState, e: Event) returns (st': StepState)
      requires e.payload.TestFinished?
      ensures st' == OnStep(st, e)
    {
      var p := e.payload;
      var i := Test(st.tests, p.suite, p.name);
      var existing := if i < |st.tests| then Some(st.tests[i]) else None;
      if existing.Some? && existing.value.attempt == e.attempt && existing.value.outcome == Failed && p.outcome != Failed {
        return st;
      }
      var outcome := p.outcome;
      if existing.Some? && p.outcome == Passed &&
         (existing.value.outcome == Recovered || (existing.value.outcome == Failed && e.attempt > existing.value.attempt)) {
        outcome := Recovered;
      }
      var r := TestResult(p.name, p.suite, outcome, p.duration, e.attempt, p.output, p.file, p.line);
      if i < |st.tests| {
        st' := st.(tests := st.tests[i := r]);
      } else {
        st' := st.(tests := st.tests + [r]);
      }
    }

    /** One event on the record of its own step, field by field. */
    method ApplyToStep(st: StepState, e: Event) returns (st': StepState)
      requires StepScoped(e.payload)
      ensures st' == OnStep(st, e)
    {
      st' := st;
      match e.payload
      case StepCreated(kind, needs, service, group) =>
        st' := st'.(kind := kind, needs := needs, isService := service);
        if group != "" {
          st' := st'.(group := group);
        } else if e.group != "" {
          st' := st'.(group := e.group);
        }
      case StepStarted =>
        st' := st'.(started := e.ts, finished := ZERO_TIME, state := "", exitCode := 0, error := "");
        st' := st'.(paused := false, held := "");
        if e.attempt > st'.attempt { st' := st'.(attempt := e.attempt); }
      case StepFinished(state, exitCode, error, usage, wasCached) =>
        st' := st'.(state := state, exitCode := exitCode, error := error, finished := e.ts);
        st' := st'.(paused := false, held := "", usage := usage);
        if wasCached { st' := st'.(cached := true); }
      case StepRetried(attempt) =>
        st' := st'.(attempt := attempt, state := "", started := ZERO_TIME, finished := ZERO_TIME);
        st' := st'.(exitCode := 0, error := "", paused := false, held := "");
        st' := st'.(service := None, usage := None, logBytes := map[]);
      case TestFinished(_, _, _, _, _, _, _) =>
        st' := ApplyTest(st', e);
      case StepLogAppended(stream, offset, len) =>
        var seen := if stream in st'.logBytes then st'.logBytes[stream] else 0;
        st' := st'.(logBytes := st'.logBytes[stream := if seen < offset + len then offset + len else seen]);
      case CacheHit =>
        st' := st'.(cached := true);
      case BreakpointHit(reason) =>
        st' := st'.(paused := true, held := reason);
      case ServiceReady(endpoints) =>
        st' := st'.(service := Some(ServiceState(e.ts, endpoints)));
    }

    /** The handler's record, created and linked to its parent step on first mention. */
    method HandlerRecord(id: string, parent: string) returns (h: HandlerState)
      modifies this`handlers, this`steps, this`order
      ensures h == if id != "" && id in old(handlers) then old(handlers)[id] else FreshHandler(id, parent)
      ensures id == "" || id in old(handlers) ==> Abs() == old(Abs())
      ensures id != "" && id !in old(handlers) ==>
                var s := old(Abs()).(handlers := old(handlers)[id := h]);
                Abs() == if parent == "" then s
                         else Put(s, parent, StepOf(s, parent).(handlers := StepOf(s, parent).handlers + [id]))
    {
      if id == "" { return FreshHandler("", parent); }
      if id in handlers { return handlers[id]; }
      h := FreshHandler(id, parent);
      handlers := handlers[id := h];
      if parent != "" {
        var st := Step(parent);
        Store(parent, st.(handlers := st.handlers + [id]));
      }
    }

    method ApplyHandlerEvent(e: Event)
      requires e.payload.Handler?
      modifies this`handlers, this`steps, this`order
      ensures Abs() == ApplyHandler(old(Abs()), e)
    {
      var p := e.payload;
      var h := HandlerRecord(e.step, p.handlerParent);
      if p.handlerKind != "" { h := h.(kind := p.handlerKind); }
      match p.phase {
        case HandlerStarted =>
          h := h.(started := e.ts);
        case HandlerSucceeded =>
          h := h.(state := STATE_SUCCEEDED, finished := e.ts);
        case HandlerFailed =>
          h := h.(state := STATE_FAILED);
          if p.panicked { h := h.(state := STATE_PANICKED); }
          h := h.(finished := e.ts, error := p.handlerError);
      }
      if e.step != "" {
        handlers := handlers[e.step := h];
        assert handlers == old(handlers)[e.step := h];
      }
    }

    method ApplyControlEvent(op: string, args: map<string, string>)
      modifies this`steps, this`run
      ensures Abs() == ApplyControl(old(Abs()), op, args)
    {
      if op == OP_BREAKPOINT_CLEAR {
        var id := Arg(args, "step");
        if id !in steps { return; }
        var st := steps[id];
        if Arg(args, "released") == RELEASED_BREAKPOINT && st.held != "" { return; }
        steps := steps[id := st.(paused := false, held := "")];
      } else if op == OP_RUN_PAUSE {
        run := run.(paused := true);
      } else if op == OP_RUN_RESUME {
        run := run.(paused := false);
      }
    }

    method ApplyStepEvent(e: Event)
      requires StepScoped(e.payload)
      modifies this`steps, this`order
      ensures Abs() == Put(old(Abs()), e.step, OnStep(StepOf(old(Abs()), e.step), e))
    {
      var st := Step(e.step);
      st := ApplyToStep(st, e);
      Store(e.step, st);
    }

    method Switch(e: Event)
      modifies this
      ensures Abs() == Dispatch(old(Abs()), e)
    {
      if StepScoped(e.payload) {
        ApplyStepEvent(e);
        return;
      }
      match e.payload
      case RunStarted(pipeline, engineVersion, planDigest, startedAt) =>
        run := run.(id := e.run, pipeline := pipeline, engineVersion := engineVersion);
        run := run.(planDigest := planDigest, started := startedAt);
      case RunFinished(status, cleanupAbandoned) =>
        run := run.(status := status, finished := e.ts, done := true);
        run := run.(cleanupAbandoned := cleanupAbandoned, paused := false);
      case PlanResolved(digest) =>
        run := run.(planDigest := digest);
      case PlanExpanded(parent, children, count, skipped) =>
        expansions := expansions[parent := ExpansionState(parent, children, count, skipped)];
        Children(children, parent);
      case PlanGenerated(generator, children, nodes) =>
        expansions := expansions[generator := ExpansionState(generator, children, nodes, 0)];
        Children(children, generator);
      case ControlApplied(op, args) =>
        ApplyControlEvent(op, args);
      case Handler(_, _, _, _, _) =>
        ApplyHandlerEvent(e);
      case _ =>
    }

    /** Folds one event into the state. */
    method Apply(e: Event) returns (err: Option<ApplyError>)
      modifies this
      ensures Abs() == Next(old(Abs()), e)
      ensures err == if !Accepts(old(Abs()), e) then Some(OutOfOrder)
                     else if e.payload.Undecodable? then Some(BadPayload) else None
    {
      if e.seqNo < seqNo { return Some(OutOfOrder); }
      if e.seqNo > seqNo { seqNo := e.seqNo; }
      if run.id == "" && e.run != "" { run := run.(id := e.run); }
      if e.payload.Undecodable? { return Some(BadPayload); }
      Switch(e);
      if e.step != "" && e.attempt > 0 {
        if e.step in steps && e.attempt > steps[e.step].attempt {
          steps := steps[e.step := steps[e.step].(attempt := e.attempt)];
        }
      }
      assert e.step in steps ==> steps[e.step := steps[e.step]] == steps;
      err := None;
    }
  }
}
