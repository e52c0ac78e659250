/** Replay: folding an accepted event a second time at once changes nothing. */
module FoldReplay {
  import opened Wrappers
  import opened Events
  import opened Fold

  // ----- tests -----

  lemma {:induction false} TestIndexUnique(tests: seq<TestResult>, suite: string, name: string, i: nat)
    requires i <= |tests| && (i < |tests| ==> IsTest(tests[i], suite, name))
    requires forall j :: 0 <= j < i ==> !IsTest(tests[j], suite, name)
    ensures TestIndex(tests, suite, name) == i
  {
    var k := TestIndex(tests, suite, name);
    assert !(k < i) && !(i < k);
  }

  /** A stored report is found where it was stored. */
  lemma ReportIsFound(tests: seq<TestResult>, p: Payload, attempt: int)
    requires p.TestFinished? && !KeepsFailure(FindTest(tests, p.suite, p.name), p.outcome, attempt)
    ensures var existing := FindTest(tests, p.suite, p.name);
            FindTest(ReportTest(tests, p, attempt), p.suite, p.name) ==
            Some(TestResult(p.name, p.suite, Verdict(existing, p.outcome, attempt), p.duration, attempt, p.output, p.file, p.line))
    ensures TestIndex(ReportTest(tests, p, attempt), p.suite, p.name) == TestIndex(tests, p.suite, p.name)
  {
    var i := TestIndex(tests, p.suite, p.name);
    TestIndexUnique(ReportTest(tests, p, attempt), p.suite, p.name, i);
  }

  lemma ReportTwice(tests: seq<TestResult>, p: Payload, attempt: int)
    requires p.TestFinished?
    ensures ReportTest(ReportTest(tests, p, attempt), p, attempt) == ReportTest(tests, p, attempt)
  {
    if !KeepsFailure(FindTest(tests, p.suite, p.name), p.outcome, attempt) {
      ReportIsFound(tests, p, attempt);
    }
  }

  // ----- step records -----

  lemma StepEffectTwice(st: StepState, e: Event)
    requires StepScoped(e.payload)
    ensures var once := SeedStep(OnStep(st, e), e);
            SeedStep(OnStep(once, e), e) == once
  {
    if e.payload.TestFinished? { ReportTwice(st.tests, e.payload, e.attempt); }
  }

  lemma StepEventTwice(s: State, e: Event)
    requires StepScoped(e.payload)
    ensures var once := Seed(Put(s, e.step, OnStep(StepOf(s, e.step), e)), e);
            Seed(Put(once, e.step, OnStep(StepOf(once, e.step), e)), e) == once
  {
    if e.step != "" {
      StepEffectTwice(StepOf(s, e.step), e);
      var once := Seed(Put(s, e.step, OnStep(StepOf(s, e.step), e)), e);
      var twice := Seed(Put(once, e.step, OnStep(StepOf(once, e.step), e)), e);
      assert twice.steps == once.steps;
    }
  }

  // ----- expansions -----

  predicate Labelled(s: State, children: seq<string>, group: string) {
    forall id :: id in children && id != "" ==> id in s.steps && s.steps[id].group == group
  }

  lemma {:induction false} AddChildrenLabels(s: State, children: seq<string>, group: string)
    ensures Labelled(AddChildren(s, children, group), children, group)
    ensures AddChildren(s, children, group).seqNo == s.seqNo && AddChildren(s, children, group).run == s.run
    ensures AddChildren(s, children, group).expansions == s.expansions
    ensures AddChildren(s, children, group).handlers == s.handlers
  {
    if children != [] {
      var k := |children| - 1;
      AddChildrenLabels(s, children[..k], group);
      assert forall id :: id in children <==> id in children[..k] || id == children[k];
    }
  }

  lemma {:induction false} LabelledUnchanged(s: State, children: seq<string>, group: string)
    requires Labelled(s, children, group)
    ensures AddChildren(s, children, group) == s
  {
    if children != [] {
      var k := |children| - 1;
      var id := children[k];
      LabelledUnchanged(s, children[..k], group);
      assert id in children;
      assert id != "" ==> s.steps[id := s.steps[id]] == s.steps;
    }
  }

  lemma ExpansionTwice(s: State, e: Event, x: ExpansionState)
    ensures var once := Seed(AddChildren(s.(expansions := s.expansions[x.parent := x]), x.children, x.parent), e);
            Seed(AddChildren(once.(expansions := once.expansions[x.parent := x]), x.children, x.parent), e) == once
  {
    var s0 := s.(expansions := s.expansions[x.parent := x]);
    AddChildrenLabels(s0, x.children, x.parent);
    var once := Seed(AddChildren(s0, x.children, x.parent), e);
    assert once.expansions[x.parent := x] == once.expansions;
    LabelledUnchanged(once, x.children, x.parent);
    SeedTwice(AddChildren(s0, x.children, x.parent), e);
  }

  lemma SeedTwice(s: State, e: Event)
    ensures Seed(Seed(s, e), e) == Seed(s, e)
  {
    if e.step in s.steps {
      var once := Seed(s, e);
      assert once.steps[e.step := once.steps[e.step]] == once.steps;
    }
  }

  // ----- control and handlers -----

  lemma ControlTwice(s: State, e: Event)
    requires e.payload.ControlApplied?
    ensures var once := Seed(ApplyControl(s, e.payload.op, e.payload.args), e);
            Seed(ApplyControl(once, e.payload.op, e.payload.args), e) == once
  {
    var op, args := e.payload.op, e.payload.args;
    var mid := ApplyControl(s, op, args);
    var once := Seed(mid, e);
    SeedTwice(mid, e);
    var id := Arg(args, "step");
    if op == OP_BREAKPOINT_CLEAR && id in s.steps {
      assert once.steps[id := once.steps[id]] == once.steps;
    }
    assert ApplyControl(once, op, args) == once;
  }

  lemma OnHandlerTwice(h: HandlerState, e: Event)
    requires e.payload.Handler?
    ensures OnHandler(OnHandler(h, e), e) == OnHandler(h, e)
  {
  }

  /** A handler event already folded in leaves everything as it is. */
  lemma HandlerAbsorbed(s: State, e: Event)
    requires e.payload.Handler?
    requires e.step != "" ==> e.step in s.handlers && OnHandler(s.handlers[e.step], e) == s.handlers[e.step]
    ensures ApplyHandler(s, e) == s
  {
    if e.step != "" { assert s.handlers[e.step := s.handlers[e.step]] == s.handlers; }
  }

  lemma HandlerStored(s: State, e: Event)
    requires e.payload.Handler? && e.step != ""
    ensures e.step in ApplyHandler(s, e).handlers
    ensures var h := if e.step in s.handlers then s.handlers[e.step] else FreshHandler(e.step, e.payload.handlerParent);
            ApplyHandler(s, e).handlers[e.step] == OnHandler(h, e)
  {
  }

  lemma HandlerTwice(s: State, e: Event)
    requires e.payload.Handler?
    ensures var once := Seed(ApplyHandler(s, e), e);
            Seed(ApplyHandler(once, e), e) == once
  {
    var mid := ApplyHandler(s, e);
    SeedTwice(mid, e);
    if e.step != "" {
      HandlerStored(s, e);
      OnHandlerTwice(if e.step in s.handlers then s.handlers[e.step] else FreshHandler(e.step, e.payload.handlerParent), e);
    }
    HandlerAbsorbed(Seed(mid, e), e);
  }

  lemma RunEventTwice(s: State, e: Event)
    requires e.payload.RunStarted? || e.payload.RunFinished? || e.payload.PlanResolved? || e.payload.Unhandled?
    ensures var once := Seed(Dispatch(s, e), e);
            Seed(Dispatch(once, e), e) == once
  {
    SeedTwice(Dispatch(s, e), e);
    var once := Seed(Dispatch(s, e), e);
    assert Dispatch(once, e) == once;
  }

  lemma ExpansionEventTwice(s: State, e: Event)
    requires e.payload.PlanExpanded? || e.payload.PlanGenerated?
    ensures var once := Seed(Dispatch(s, e), e);
            Seed(Dispatch(once, e), e) == once
  {
    match e.payload
    case PlanExpanded(parent, children, count, skipped) =>
      ExpansionTwice(s, e, ExpansionState(parent, children, count, skipped));
    case PlanGenerated(generator, children, nodes) =>
      ExpansionTwice(s, e, ExpansionState(generator, children, nodes, 0));
  }

  lemma DispatchTwice(s: State, e: Event)
    requires !e.payload.Undecodable?
    ensures var once := Seed(Dispatch(s, e), e);
            Seed(Dispatch(once, e), e) == once
  {
    if StepScoped(e.payload) {
      StepEventTwice(s, e);
    } else if e.payload.PlanExpanded? || e.payload.PlanGenerated? {
      ExpansionEventTwice(s, e);
    } else if e.payload.ControlApplied? {
      ControlTwice(s, e);
    } else if e.payload.Handler? {
      HandlerTwice(s, e);
    } else {
      RunEventTwice(s, e);
    }
  }

  /** No event type touches the sequence number, and only run.started the run id. */
  lemma DispatchKeepsEnvelope(s: State, e: Event)
    ensures Dispatch(s, e).seqNo == s.seqNo
    ensures Dispatch(s, e).run.id == if e.payload.RunStarted? then e.run else s.run.id
  {
    match e.payload
    case PlanExpanded(parent, children, count, skipped) =>
      AddChildrenLabels(s.(expansions := s.expansions[parent := ExpansionState(parent, children, count, skipped)]),
                        children, parent);
    case PlanGenerated(generator, children, nodes) =>
      AddChildrenLabels(s.(expansions := s.expansions[generator := ExpansionState(generator, children, nodes, 0)]),
                        children, generator);
    case _ =>
  }

  /**
   A client that resumes one sequence number too early folds its last event twice; for every state and
   every event type the second fold is the identity.
   */
  lemma ReplayIdempotent(s: State, e: Event)
    requires Accepts(s, e)
    ensures Accepts(Next(s, e), e) && Next(Next(s, e), e) == Next(s, e)
  {
    var s1 := Admit(s, e);
    if !e.payload.Undecodable? {
      DispatchKeepsEnvelope(s1, e);
      DispatchTwice(s1, e);
      assert Admit(Next(s, e), e) == Next(s, e);
    }
  }
}
