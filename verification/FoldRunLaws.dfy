/**
 What a run's own information, its handlers, its expansions, its order and its tests show after a whole
 stream, told by the events alone.
 */
module FoldRunLaws {
  import opened Wrappers
  import opened Events
  import opened Fold
  import opened FoldReplay
  import opened FoldLocality
  import opened FoldTests
  import opened FoldLaws

  function After(es: seq<Event>): State {
    Run(EMPTY_STATE, es)
  }

  // ----- the run -----

  lemma WiderRun(s: State, e: Event)
    requires e.payload.PlanExpanded? || e.payload.PlanGenerated? || e.payload.Handler? || StepScoped(e.payload)
    ensures Dispatch(s, e).run == s.run
  {
    match e.payload
    case PlanExpanded(parent, children, count, skipped) =>
      AddChildrenLabels(s.(expansions := s.expansions[parent := ExpansionState(parent, children, count, skipped)]),
                        children, parent);
    case PlanGenerated(generator, children, nodes) =>
      AddChildrenLabels(s.(expansions := s.expansions[generator := ExpansionState(generator, children, nodes, 0)]),
                        children, generator);
    case _ =>
  }

  /** What one event does to each field of the run's information, all but its id. */
  predicate RunMoves(r: RunInfo, r': RunInfo, e: Event) {
    && r'.pipeline == (if e.payload.RunStarted? then e.payload.pipeline else r.pipeline)
    && r'.engineVersion == (if e.payload.RunStarted? then e.payload.engineVersion else r.engineVersion)
    && r'.started == (if e.payload.RunStarted? then e.payload.startedAt else r.started)
    && r'.planDigest == (if e.payload.RunStarted? then e.payload.planDigest
                         else if e.payload.PlanResolved? then e.payload.digest else r.planDigest)
    && r'.status == (if e.payload.RunFinished? then e.payload.status else r.status)
    && r'.finished == (if e.payload.RunFinished? then e.ts else r.finished)
    && r'.cleanupAbandoned == (if e.payload.RunFinished? then e.payload.cleanupAbandoned else r.cleanupAbandoned)
    && (r'.done <==> r.done || e.payload.RunFinished?)
    && (r'.paused <==> if About(Pausing, e, "") then e.payload.ControlApplied? && e.payload.op == "run.pause" else r.paused)
  }

  lemma SeedKeepsRun(s: State, e: Event)
    ensures Seed(s, e).run == s.run
  {
  }

  lemma WiderMoves(s: State, e: Event)
    requires e.payload.PlanExpanded? || e.payload.PlanGenerated? || e.payload.Handler? || StepScoped(e.payload)
    ensures RunMoves(s.run, Dispatch(s, e).run, e)
  {
    WiderRun(s, e);
  }

  lemma ControlMoves(s: State, e: Event)
    requires e.payload.ControlApplied?
    ensures RunMoves(s.run, ApplyControl(s, e.payload.op, e.payload.args).run, e)
    ensures ApplyControl(s, e.payload.op, e.payload.args).run.id == s.run.id
  {
  }

  lemma OwnMoves(s: State, e: Event)
    requires e.payload.RunStarted? || e.payload.RunFinished? || e.payload.PlanResolved? || e.payload.Unhandled?
    ensures RunMoves(s.run, Dispatch(s, e).run, e)
  {
  }

  lemma NextRunIs(s: State, e: Event)
    requires Accepts(s, e)
    ensures Next(s, e).run == if e.payload.Undecodable? then Admit(s, e).run else Dispatch(Admit(s, e), e).run
  {
    if !e.payload.Undecodable? { SeedKeepsRun(Dispatch(Admit(s, e), e), e); }
  }

  lemma DispatchMoves(s: State, e: Event)
    requires !e.payload.Undecodable?
    ensures RunMoves(s.run, Dispatch(s, e).run, e)
  {
    if e.payload.PlanExpanded? || e.payload.PlanGenerated? || e.payload.Handler? || StepScoped(e.payload) {
      WiderMoves(s, e);
    } else if e.payload.ControlApplied? {
      ControlMoves(s, e);
    } else {
      OwnMoves(s, e);
    }
  }

  /** The id plays no part in the other fields. */
  lemma MovesWhateverId(r: RunInfo, r1: RunInfo, r': RunInfo, e: Event)
    requires r1 == r.(id := r1.id) && RunMoves(r1, r', e)
    ensures RunMoves(r, r', e)
  {
  }

  lemma UndecodableMoves(r: RunInfo, e: Event)
    requires e.payload.Undecodable?
    ensures RunMoves(r, r, e)
  {
  }

  lemma RunEffect(s: State, e: Event)
    requires Accepts(s, e)
    ensures RunMoves(s.run, Next(s, e).run, e)
  {
    var s1 := Admit(s, e);
    NextRunIs(s, e);
    if e.payload.Undecodable? { UndecodableMoves(s1.run, e); } else { DispatchMoves(s1, e); }
    MovesWhateverId(s.run, s1.run, Next(s, e).run, e);
  }

  /** What the run's information shows after a stream. */
  predicate RunShows(es: seq<Event>, r: RunInfo) {
    var s, d, f, p := Last(es, Launching, ""), Last(es, Planning, ""), Last(es, Concluding, ""), Last(es, Pausing, "");
    && (if s.Some? && s.value.payload.RunStarted? then
          r.pipeline == s.value.payload.pipeline && r.engineVersion == s.value.payload.engineVersion &&
          r.started == s.value.payload.startedAt
        else r.pipeline == "" && r.engineVersion == "" && r.started == ZERO_TIME)
    && r.planDigest == (if d.None? then "" else if d.value.payload.RunStarted? then d.value.payload.planDigest
                        else if d.value.payload.PlanResolved? then d.value.payload.digest else "")
    && (if f.Some? && f.value.payload.RunFinished? then
          r.done && r.status == f.value.payload.status && r.finished == f.value.ts &&
          r.cleanupAbandoned == f.value.payload.cleanupAbandoned
        else !r.done && r.status == "" && r.finished == ZERO_TIME && !r.cleanupAbandoned)
    && (r.paused <==> p.Some? && p.value.payload.ControlApplied? && p.value.payload.op == "run.pause")
  }

  lemma RunShowsLast(es: seq<Event>, r: RunInfo, r': RunInfo)
    requires es != [] && RunShows(es[..|es| - 1], r) && RunMoves(r, r', es[|es| - 1])
    ensures RunShows(es, r')
  {
  }

  /**
   The last run.started names the pipeline, the engine and the start, unless a later plan.resolved the digest too;
   the last run.finished the status, the end and whether cleanup was abandoned; and the run is paused exactly when a
   pause was the last of pause, resume and finish.
   */
  lemma {:induction false} RunLaw(es: seq<Event>)
    requires Ordered(EMPTY_STATE, es)
    ensures RunShows(es, After(es).run)
  {
    if es != [] {
      var k := |es| - 1;
      OrderedFront(es);
      RunLaw(es[..k]);
      RunEffect(After(es[..k]), es[k]);
      RunShowsLast(es, After(es[..k]).run, After(es).run);
    }
  }

  lemma RunIdEffect(s: State, e: Event)
    requires Accepts(s, e)
    ensures Next(s, e).run.id == if e.payload.RunStarted? || s.run.id == "" then e.run else s.run.id
  {
    var s1 := Admit(s, e);
    if !e.payload.Undecodable? {
      SeedKeepsRun(Dispatch(s1, e), e);
      DispatchKeepsEnvelope(s1, e);
    }
  }

  /** A stream of one run has that run's id. */
  lemma {:induction false} RunIdLaw(es: seq<Event>, id: string)
    requires Ordered(EMPTY_STATE, es) && forall e :: e in es ==> e.run == id
    ensures After(es).run.id == if es == [] then "" else id
  {
    if es != [] {
      var k := |es| - 1;
      OrderedFront(es);
      RunIdLaw(es[..k], id);
      RunIdEffect(After(es[..k]), es[k]);
    }
  }

  /** The sequence number is that of the last event. */
  lemma SeqLaw(es: seq<Event>)
    requires Ordered(EMPTY_STATE, es) && es != []
    ensures After(es).seqNo == es[|es| - 1].seqNo
  {
    OrderedFront(es);
    NextSeq(After(es[..|es| - 1]), es[|es| - 1]);
  }

  // ----- handlers -----

  function HandlerAt(s: State, h: string): Option<HandlerState> {
    if h in s.handlers then Some(s.handlers[h]) else None
  }

  lemma HandlerNext(s: State, e: Event, h: string)
    requires Accepts(s, e) && h != ""
    ensures HandlerAt(Next(s, e), h) ==
            if e.payload.Handler? && e.step == h then
              Some(OnHandler(if h in s.handlers then s.handlers[h] else FreshHandler(h, e.payload.handlerParent), e))
            else HandlerAt(s, h)
  {
    if !e.payload.Handler? {
      DispatchHandlers(Admit(s, e), e);
    }
  }

  /** What one of its own events makes of a handler. */
  predicate HandlerMoves(x: HandlerState, y: HandlerState, e: Event) {
    var p := e.payload;
    && p.Handler? && y.id == x.id && y.parent == x.parent
    && y.kind == (if p.handlerKind != "" then p.handlerKind else x.kind)
    && y.started == (if p.phase.HandlerStarted? then e.ts else x.started)
    && y.state == (if p.phase.HandlerStarted? then x.state else if p.phase.HandlerSucceeded? then "succeeded"
                   else if p.panicked then "panicked" else "failed")
    && y.finished == (if p.phase.HandlerStarted? then x.finished else e.ts)
    && y.error == (if p.phase.HandlerFailed? then p.handlerError else x.error)
  }

  lemma HandlerEffect(x: HandlerState, e: Event)
    requires e.payload.Handler?
    ensures HandlerMoves(x, OnHandler(x, e), e)
  {
  }

  /** What a handler shows after a stream. */
  predicate HandlerShows(es: seq<Event>, h: string, y: HandlerState) {
    var s, t, f, n := Last(es, HandlerStarting, h), Last(es, HandlerEnding, h), Last(es, HandlerFailing, h), Last(es, HandlerNaming, h);
    && y.kind == (if n.Some? && n.value.payload.Handler? then n.value.payload.handlerKind else "")
    && y.started == (if s.Some? then s.value.ts else ZERO_TIME)
    && y.finished == (if t.Some? then t.value.ts else ZERO_TIME)
    && y.state == (if t.None? || !t.value.payload.Handler? then ""
                   else if t.value.payload.phase.HandlerSucceeded? then "succeeded"
                   else if t.value.payload.panicked then "panicked" else "failed")
    && y.error == (if f.Some? && f.value.payload.Handler? then f.value.payload.handlerError else "")
  }

  lemma ShowsQuiet(es: seq<Event>, h: string, y: HandlerState)
    requires es != [] && !(es[|es| - 1].payload.Handler? && es[|es| - 1].step == h) && HandlerShows(es[..|es| - 1], h, y)
    ensures HandlerShows(es, h, y)
  {
  }

  lemma ShowsOwn(es: seq<Event>, h: string, x: HandlerState, y: HandlerState)
    requires es != [] && es[|es| - 1].step == h && HandlerMoves(x, y, es[|es| - 1]) && HandlerShows(es[..|es| - 1], h, x)
    ensures HandlerShows(es, h, y)
  {
  }

  /**
   A handler's start is that of its last start, its state and end those of its last end, its error that of its last
   failure, and its kind the one last named.
   */
  lemma {:induction false} HandlerLaw(es: seq<Event>, h: string)
    requires h != "" && Ordered(EMPTY_STATE, es) && h in After(es).handlers
    ensures HandlerShows(es, h, After(es).handlers[h])
  {
    if es != [] {
      var k := |es| - 1;
      OrderedFront(es);
      var s, e := After(es[..k]), es[k];
      HandlerNext(s, e, h);
      RunHandlers(EMPTY_STATE, es[..k], h);
      if h in s.handlers { HandlerLaw(es[..k], h); }
      if e.payload.Handler? && e.step == h {
        if h !in s.handlers { NeverNamed(es[..k], h); }
        var x := if h in s.handlers then s.handlers[h] else FreshHandler(h, e.payload.handlerParent);
        HandlerEffect(x, e);
        ShowsOwn(es, h, x, OnHandler(x, e));
      } else {
        ShowsQuiet(es, h, s.handlers[h]);
      }
    }
  }

  /** A handler is there exactly when some event named it, under the parent its first event named. */
  lemma {:induction false} HandlerPresence(es: seq<Event>, h: string)
    requires h != "" && Ordered(EMPTY_STATE, es)
    ensures h in After(es).handlers <==> FirstParent(es, h).Some?
    ensures h in After(es).handlers ==> After(es).handlers[h].id == h && Some(After(es).handlers[h].parent) == FirstParent(es, h)
  {
    if es != [] {
      var k := |es| - 1;
      OrderedFront(es);
      HandlerPresence(es[..k], h);
      HandlerNext(After(es[..k]), es[k], h);
    }
  }

  lemma {:induction false} NeverNamed(es: seq<Event>, h: string)
    requires FirstParent(es, h).None?
    ensures Last(es, HandlerStarting, h) == None && Last(es, HandlerEnding, h) == None
    ensures Last(es, HandlerFailing, h) == None && Last(es, HandlerNaming, h) == None
  {
    if es != [] { NeverNamed(es[..|es| - 1], h); }
  }

  // ----- expansions -----

  function ExpansionAt(s: State, x: string): Option<ExpansionState> {
    if x in s.expansions then Some(s.expansions[x]) else None
  }

  lemma DispatchExpansions(s: State, e: Event)
    ensures Dispatch(s, e).expansions ==
            match e.payload
            case PlanExpanded(parent, children, count, skipped) =>
              s.expansions[parent := ExpansionState(parent, children, count, skipped)]
            case PlanGenerated(generator, children, nodes) =>
              s.expansions[generator := ExpansionState(generator, children, nodes, 0)]
            case _ => s.expansions
  {
    match e.payload
    case PlanExpanded(parent, children, count, skipped) =>
      AddChildrenLabels(s.(expansions := s.expansions[parent := ExpansionState(parent, children, count, skipped)]),
                        children, parent);
    case PlanGenerated(generator, children, nodes) =>
      AddChildrenLabels(s.(expansions := s.expansions[generator := ExpansionState(generator, children, nodes, 0)]),
                        children, generator);
    case _ =>
  }

  lemma ExpansionEffectOn(s: State, e: Event, x: string)
    requires Accepts(s, e)
    ensures ExpansionAt(Next(s, e), x) ==
            if e.payload.PlanExpanded? && e.payload.parent == x then
              Some(ExpansionState(x, e.payload.children, e.payload.count, e.payload.skipped))
            else if e.payload.PlanGenerated? && e.payload.generator == x then
              Some(ExpansionState(x, e.payload.children, e.payload.nodes, 0))
            else ExpansionAt(s, x)
  {
    DispatchExpansions(Admit(s, e), e);
  }

  /** An expansion is recorded as its last event tells it. */
  lemma {:induction false} ExpansionLaw(es: seq<Event>, x: string)
    requires Ordered(EMPTY_STATE, es)
    ensures var g := Last(es, Expanding, x);
            ExpansionAt(After(es), x) ==
            if g.None? then None
            else match g.value.payload
                 case PlanExpanded(_, children, count, skipped) => Some(ExpansionState(x, children, count, skipped))
                 case PlanGenerated(_, children, nodes) => Some(ExpansionState(x, children, nodes, 0))
                 case _ => None
  {
    if es != [] {
      var k := |es| - 1;
      OrderedFront(es);
      ExpansionLaw(es[..k], x);
      ExpansionEffectOn(After(es[..k]), es[k], x);
    }
  }

  // ----- first come, first listed -----

  lemma {:induction false} AddChildrenOrder(s: State, children: seq<string>, group: string)
    ensures s.order <= AddChildren(s, children, group).order
  {
    if children != [] { AddChildrenOrder(s, children[..|children| - 1], group); }
  }

  lemma DispatchOrder(s: State, e: Event)
    ensures s.order <= Dispatch(s, e).order
  {
    match e.payload
    case PlanExpanded(parent, children, count, skipped) =>
      AddChildrenOrder(s.(expansions := s.expansions[parent := ExpansionState(parent, children, count, skipped)]),
                       children, parent);
    case PlanGenerated(generator, children, nodes) =>
      AddChildrenOrder(s.(expansions := s.expansions[generator := ExpansionState(generator, children, nodes, 0)]),
                       children, generator);
    case _ =>
  }

  lemma NextOrder(s: State, e: Event)
    ensures s.order <= Next(s, e).order
  {
    if Accepts(s, e) && !e.payload.Undecodable? { DispatchOrder(Admit(s, e), e); }
  }

  /** Steps are listed in the order they first appeared: what an earlier state lists, every later one lists first. */
  lemma {:induction false} OrderLaw(s: State, es: seq<Event>, k: nat)
    requires k <= |es|
    ensures Run(s, es[..k]).order <= Run(s, es).order
    decreases |es|
  {
    if k == |es| {
      assert es[..k] == es;
    } else {
      var n := |es| - 1;
      OrderLaw(s, es[..n], k);
      assert es[..n][..k] == es[..k];
      NextOrder(Run(s, es[..n]), es[n]);
    }
  }

  lemma HandlersEffect(r: Option<StepState>, x: string, e: Event, known: bool)
    requires x != "" && !e.payload.Undecodable?
    ensures Shown(r, x).handlers <= Shown(Effect(r, x, e, known), x).handlers
  {
    if StepScoped(e.payload) {
      ScopedEffect(r, x, e, known);
      OnStepKeepsLinks(Shown(r, x), e);
    }
  }

  /** A step lists its handlers in the order they were first attached to it. */
  lemma {:induction false} HandlerOrderLaw(es: seq<Event>, k: nat, x: string)
    requires x != "" && k <= |es| && Ordered(EMPTY_STATE, es)
    ensures Shown(RecordAfter(es[..k], x), x).handlers <= Shown(RecordAfter(es, x), x).handlers
    decreases |es|
  {
    if k == |es| {
      assert es[..k] == es;
    } else {
      var n := |es| - 1;
      OrderedFront(es);
      HandlerOrderLaw(es[..n], k, x);
      assert es[..n][..k] == es[..k];
      RecordLast(es, x);
      if !es[n].payload.Undecodable? { HandlersEffect(RecordAfter(es[..n], x), x, es[n], KnownAfter(es[..n], es[n].step)); }
    }
  }

  // ----- test details -----

  predicate ShowsReport(r: TestResult, e: Event) {
    e.payload.TestFinished? && r.name == e.payload.name && r.suite == e.payload.suite && r.duration == e.payload.duration &&
    r.output == e.payload.output && r.file == e.payload.file && r.line == e.payload.line && r.attempt == e.attempt
  }

  /** r shows the i-th event's report, and every later one is only a better verdict of the attempt that failed. */
  predicate ShownFrom(es: seq<Event>, i: nat, r: TestResult, x: string, suite: string, name: string) {
    && i < |es| && Reports(es[i], x, suite, name) && ShowsReport(r, es[i])
    && forall j :: i < j < |es| && Reports(es[j], x, suite, name) ==>
         r.outcome == Failed && es[j].payload.outcome != Failed && es[j].attempt == r.attempt
  }

  lemma TestNext(s: State, e: Event, x: string, suite: string, name: string)
    requires x != "" && Accepts(s, e)
    ensures var tests := if x in s.steps then s.steps[x].tests else [];
            TestAt(Next(s, e), x, suite, name) ==
            if Reports(e, x, suite, name) then FindTest(ReportTest(tests, e.payload, e.attempt), suite, name)
            else TestAt(s, x, suite, name)
  {
    NextRecord(s, e, x);
    EffectOnTests(Record(s, x), x, e, e.step in s.handlers);
    var tests := if x in s.steps then s.steps[x].tests else [];
    assert TestAt(s, x, suite, name) == FindTest(tests, suite, name);
    if e.payload.TestFinished? && e.step == x && !Reports(e, x, suite, name) {
      OtherTestKept(tests, e.payload, e.attempt, suite, name);
    }
  }

  /** A report replaces what is shown, unless it is a better verdict of the attempt that failed. */
  lemma ReportShown(tests: seq<TestResult>, e: Event)
    requires e.payload.TestFinished?
    ensures var was := FindTest(tests, e.payload.suite, e.payload.name);
            var now := FindTest(ReportTest(tests, e.payload, e.attempt), e.payload.suite, e.payload.name);
            now.Some? &&
            if was.Some? && was.value.attempt == e.attempt && was.value.outcome == Failed && e.payload.outcome != Failed
            then now == was else ShowsReport(now.value, e)
  {
    var was := FindTest(tests, e.payload.suite, e.payload.name);
    if !KeepsFailure(was, e.payload.outcome, e.attempt) { ReportIsFound(tests, e.payload, e.attempt); }
  }

  lemma ShownLonger(es: seq<Event>, i: nat, r: TestResult, x: string, suite: string, name: string)
    requires es != [] && ShownFrom(es[..|es| - 1], i, r, x, suite, name)
    requires var e := es[|es| - 1];
             Reports(e, x, suite, name) ==> r.outcome == Failed && e.payload.outcome != Failed && e.attempt == r.attempt
    ensures ShownFrom(es, i, r, x, suite, name)
  {
    var front := es[..|es| - 1];
    assert forall j :: 0 <= j < |front| ==> front[j] == es[j];
  }

  /** What a test shows comes from its last report, or from the failure that a better verdict of the same attempt follows. */
  lemma {:induction false} TestDetailsLaw(es: seq<Event>, x: string, suite: string, name: string)
    requires x != "" && Ordered(EMPTY_STATE, es) && TestAt(After(es), x, suite, name).Some?
    ensures exists i: nat :: ShownFrom(es, i, TestAt(After(es), x, suite, name).value, x, suite, name)
  {
    if es != [] {
      var k := |es| - 1;
      var s, e := After(es[..k]), es[k];
      OrderedFront(es);
      TestNext(s, e, x, suite, name);
      var was, now := TestAt(s, x, suite, name), TestAt(After(es), x, suite, name);
      var tests := if x in s.steps then s.steps[x].tests else [];
      if Reports(e, x, suite, name) { ReportShown(tests, e); }
      if now == was {
        TestDetailsLaw(es[..k], x, suite, name);
        var i: nat :| ShownFrom(es[..k], i, was.value, x, suite, name);
        if Reports(e, x, suite, name) && ShowsReport(now.value, e) {
          assert ShownFrom(es, k, now.value, x, suite, name);
        } else {
          ShownLonger(es, i, was.value, x, suite, name);
        }
      } else {
        assert ShownFrom(es, k, now.value, x, suite, name);
      }
    }
  }
}
