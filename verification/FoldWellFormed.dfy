/** The shape every folded state keeps. */
module FoldWellFormed {
  import opened Events
  import opened Fold

  predicate NoRepeats<T(==)>(s: seq<T>) {
    forall i, j :: 0 <= i < j < |s| ==> s[i] != s[j]
  }

  /** A test is identified by suite and name together, and listed once. */
  predicate TestsUnique(tests: seq<TestResult>) {
    forall i, j :: 0 <= i < j < |tests| ==> !(tests[i].suite == tests[j].suite && tests[i].name == tests[j].name)
  }

  predicate GoodStep(id: string, st: StepState) {
    && st.id == id
    && TestsUnique(st.tests)
    && NoRepeats(st.handlers)
    && (st.held != "" ==> st.paused)
  }

  type Steps = map<string, StepState>
  type Handlers = map<string, HandlerState>

  /** The order lists every step once, and no step has an empty id. */
  ghost predicate OrderExact(steps: Steps, order: seq<string>) {
    NoRepeats(order) && "" !in steps && forall id :: id in order <==> id in steps
  }

  ghost predicate HandlersKeyed(handlers: Handlers) {
    "" !in handlers && forall h :: h in handlers ==> handlers[h].id == h
  }

  /** Each step lists exactly the handlers that name it as their parent. */
  ghost predicate HandlersLinked(steps: Steps, handlers: Handlers) {
    && (forall h :: h in handlers && handlers[h].parent != "" ==> handlers[h].parent in steps)
    && (forall id, h :: id in steps ==> (h in steps[id].handlers <==> h in handlers && handlers[h].parent == id))
  }

  ghost predicate StepsGood(steps: Steps) {
    forall id :: id in steps ==> GoodStep(id, steps[id])
  }

  ghost predicate WellFormed(s: State) {
    OrderExact(s.steps, s.order) && HandlersKeyed(s.handlers) && HandlersLinked(s.steps, s.handlers) && StepsGood(s.steps)
  }

  lemma ReportKeepsUnique(tests: seq<TestResult>, p: Payload, attempt: int)
    requires p.TestFinished? && TestsUnique(tests)
    ensures TestsUnique(ReportTest(tests, p, attempt))
  {
    var r := ReportTest(tests, p, attempt);
    var i := TestIndex(tests, p.suite, p.name);
    if i < |tests| && r != tests {
      forall a, b | 0 <= a < b < |r| ensures !(r[a].suite == r[b].suite && r[a].name == r[b].name) {
        assert IsTest(tests[i], p.suite, p.name);
        assert !(tests[a].suite == tests[b].suite && tests[a].name == tests[b].name);
      }
    }
  }

  lemma OnStepKeepsGood(id: string, st: StepState, e: Event)
    requires StepScoped(e.payload) && GoodStep(id, st)
    ensures GoodStep(id, OnStep(st, e)) && OnStep(st, e).handlers == st.handlers
  {
    if e.payload.TestFinished? { ReportKeepsUnique(st.tests, e.payload, e.attempt); }
  }

  lemma PutOrder(steps: Steps, order: seq<string>, id: string, st: StepState)
    requires OrderExact(steps, order) && id != ""
    ensures OrderExact(steps[id := st], if id in steps then order else order + [id])
  {
    if id !in steps {
      assert id !in order;
      assert NoRepeats(order + [id]);
    }
  }

  lemma PutLinked(steps: Steps, handlers: Handlers, id: string, st: StepState)
    requires id != "" && HandlersLinked(steps, handlers) && st.handlers == if id in steps then steps[id].handlers else []
    ensures HandlersLinked(steps[id := st], handlers)
  {
    if id !in steps {
      assert forall h :: h in handlers ==> handlers[h].parent != id;
    }
  }

  lemma PutGood(steps: Steps, id: string, st: StepState)
    requires StepsGood(steps) && GoodStep(id, st)
    ensures StepsGood(steps[id := st])
  {
  }

  /** Storing a good record whose handler list is the one already there keeps the shape. */
  lemma PutKeeps(s: State, id: string, st: StepState)
    requires WellFormed(s) && GoodStep(id, st) && st.handlers == StepOf(s, id).handlers
    ensures WellFormed(Put(s, id, st))
  {
    if id != "" {
      PutOrder(s.steps, s.order, id, st);
      PutLinked(s.steps, s.handlers, id, st);
      PutGood(s.steps, id, st);
    }
  }

  lemma {:induction false} AddChildrenKeeps(s: State, children: seq<string>, group: string)
    requires WellFormed(s)
    ensures WellFormed(AddChildren(s, children, group))
  {
    if children != [] {
      var k := |children| - 1;
      AddChildrenKeeps(s, children[..k], group);
      var s' := AddChildren(s, children[..k], group);
      var st := StepOf(s', children[k]);
      PutKeeps(s', children[k], st.(group := group));
    }
  }

  /** A handler seen for the first time is added to its parent's list. */
  lemma LinkKeeps(steps: Steps, handlers: Handlers, h: HandlerState)
    requires HandlersLinked(steps, handlers) && StepsGood(steps)
    requires h.id !in handlers && h.parent in steps
    ensures var linked := steps[h.parent].(handlers := steps[h.parent].handlers + [h.id]);
            HandlersLinked(steps[h.parent := linked], handlers[h.id := h]) && StepsGood(steps[h.parent := linked])
  {
    var st := steps[h.parent];
    assert h.id !in st.handlers;
    assert NoRepeats(st.handlers + [h.id]);
  }

  lemma RelinkKeeps(steps: Steps, handlers: Handlers, h: HandlerState)
    requires HandlersLinked(steps, handlers)
    requires if h.id in handlers then handlers[h.id].parent == h.parent else h.parent == "" && "" !in steps
    ensures HandlersLinked(steps, handlers[h.id := h])
  {
  }

  /** A first mention materialises the parent step, then links it. */
  lemma NewHandlerIs(s: State, e: Event, base: State, h: HandlerState, linked: StepState)
    requires e.payload.Handler? && e.step != "" && e.step !in s.handlers && e.payload.handlerParent != ""
    requires base == Put(s, e.payload.handlerParent, StepOf(s, e.payload.handlerParent))
    requires h == OnHandler(FreshHandler(e.step, e.payload.handlerParent), e)
    requires linked == base.steps[h.parent].(handlers := base.steps[h.parent].handlers + [h.id])
    ensures ApplyHandler(s, e) == base.(handlers := base.handlers[h.id := h], steps := base.steps[h.parent := linked])
  {
    assert ApplyHandler(s, e).steps == base.steps[h.parent := linked];
  }

  lemma NewHandlerKeeps(s: State, e: Event)
    requires WellFormed(s) && e.payload.Handler? && e.step != "" && e.step !in s.handlers
    requires e.payload.handlerParent != ""
    ensures WellFormed(ApplyHandler(s, e))
  {
    var parent := e.payload.handlerParent;
    var h := OnHandler(FreshHandler(e.step, parent), e);
    var base := Put(s, parent, StepOf(s, parent));
    PutKeeps(s, parent, StepOf(s, parent));
    var linked := base.steps[parent].(handlers := base.steps[parent].handlers + [h.id]);
    NewHandlerIs(s, e, base, h, linked);
    LinkKeeps(base.steps, base.handlers, h);
    OrderIgnoresRecords(base.steps, base.order, parent, linked);
  }

  lemma OrderIgnoresRecords(steps: Steps, order: seq<string>, id: string, st: StepState)
    requires OrderExact(steps, order) && id in steps
    ensures OrderExact(steps[id := st], order)
  {
  }

  lemma KeyedKeeps(handlers: Handlers, h: HandlerState)
    requires HandlersKeyed(handlers) && h.id != ""
    ensures HandlersKeyed(handlers[h.id := h])
  {
  }

  /** A handler already known, or one without a parent step: no step changes. */
  lemma UnlinkedHandlerKeeps(s: State, e: Event, h: HandlerState)
    requires WellFormed(s) && e.payload.Handler? && e.step != ""
    requires e.step in s.handlers || e.payload.handlerParent == ""
    requires h == OnHandler(if e.step in s.handlers then s.handlers[e.step] else FreshHandler(e.step, ""), e)
    ensures WellFormed(s.(handlers := s.handlers[e.step := h]))
  {
    KeyedKeeps(s.handlers, h);
    RelinkKeeps(s.steps, s.handlers, h);
  }

  lemma HandlerKeeps(s: State, e: Event)
    requires WellFormed(s) && e.payload.Handler?
    ensures WellFormed(ApplyHandler(s, e))
  {
    if e.step != "" {
      if e.step in s.handlers || e.payload.handlerParent == "" {
        var h := OnHandler(if e.step in s.handlers then s.handlers[e.step] else FreshHandler(e.step, ""), e);
        assert ApplyHandler(s, e) == s.(handlers := s.handlers[e.step := h]);
        UnlinkedHandlerKeeps(s, e, h);
      } else {
        NewHandlerKeeps(s, e);
      }
    }
  }

  lemma ControlKeeps(s: State, op: string, args: map<string, string>)
    requires WellFormed(s)
    ensures WellFormed(ApplyControl(s, op, args))
  {
    var id := Arg(args, "step");
    if op == OP_BREAKPOINT_CLEAR && id in s.steps {
      var st := s.steps[id].(paused := false, held := "");
      OrderIgnoresRecords(s.steps, s.order, id, st);
      PutLinked(s.steps, s.handlers, id, st);
      PutGood(s.steps, id, st);
    }
  }

  lemma SeedKeeps(s: State, e: Event)
    requires WellFormed(s)
    ensures WellFormed(Seed(s, e))
  {
    if e.step in s.steps {
      var st := SeedStep(s.steps[e.step], e);
      OrderIgnoresRecords(s.steps, s.order, e.step, st);
      PutLinked(s.steps, s.handlers, e.step, st);
      PutGood(s.steps, e.step, st);
    }
  }

  lemma StepEventKeeps(s: State, e: Event)
    requires WellFormed(s) && StepScoped(e.payload)
    ensures WellFormed(Put(s, e.step, OnStep(StepOf(s, e.step), e)))
  {
    OnStepKeepsGood(e.step, StepOf(s, e.step), e);
    PutKeeps(s, e.step, OnStep(StepOf(s, e.step), e));
  }

  lemma ExpansionKeeps(s: State, x: ExpansionState)
    requires WellFormed(s)
    ensures WellFormed(AddChildren(s.(expansions := s.expansions[x.parent := x]), x.children, x.parent))
  {
    AddChildrenKeeps(s.(expansions := s.expansions[x.parent := x]), x.children, x.parent);
  }

  lemma ExpansionEventKeeps(s: State, e: Event)
    requires WellFormed(s) && (e.payload.PlanExpanded? || e.payload.PlanGenerated?)
    ensures WellFormed(Dispatch(s, e))
  {
    match e.payload
    case PlanExpanded(parent, children, count, skipped) =>
      ExpansionKeeps(s, ExpansionState(parent, children, count, skipped));
    case PlanGenerated(generator, children, nodes) =>
      ExpansionKeeps(s, ExpansionState(generator, children, nodes, 0));
  }

  lemma SameShape(s: State, t: State)
    requires WellFormed(s) && t.steps == s.steps && t.order == s.order && t.handlers == s.handlers
    ensures WellFormed(t)
  {
  }

  lemma DispatchKeeps(s: State, e: Event)
    requires WellFormed(s)
    ensures WellFormed(Dispatch(s, e))
  {
    if StepScoped(e.payload) {
      StepEventKeeps(s, e);
      assert Dispatch(s, e) == Put(s, e.step, OnStep(StepOf(s, e.step), e));
    } else {
      WiderEventKeeps(s, e);
    }
  }

  lemma WiderEventKeeps(s: State, e: Event)
    requires WellFormed(s) && !StepScoped(e.payload)
    ensures WellFormed(Dispatch(s, e))
  {
    if e.payload.PlanExpanded? || e.payload.PlanGenerated? {
      ExpansionEventKeeps(s, e);
    } else if e.payload.ControlApplied? {
      ControlKeeps(s, e.payload.op, e.payload.args);
    } else if e.payload.Handler? {
      HandlerKeeps(s, e);
    } else {
      SameShape(s, Dispatch(s, e));
    }
  }

  lemma NextKeeps(s: State, e: Event)
    requires WellFormed(s)
    ensures WellFormed(Next(s, e))
  {
    var s1 := Admit(s, e);
    DispatchKeeps(s1, e);
    SeedKeeps(Dispatch(s1, e), e);
  }

  lemma {:induction false} RunKeeps(s: State, es: seq<Event>)
    requires WellFormed(s)
    ensures WellFormed(Run(s, es))
  {
    if es != [] {
      var k := |es| - 1;
      RunKeeps(s, es[..k]);
      NextKeeps(Run(s, es[..k]), es[k]);
    }
  }

  /** Every state a stream of events can reach is well formed, whatever the events are. */
  lemma ReachableWellFormed(es: seq<Event>)
    ensures WellFormed(Run(EMPTY_STATE, es))
  {
    RunKeeps(EMPTY_STATE, es);
  }
}
