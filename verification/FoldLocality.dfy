/**
 Locality: a step's record depends only on the events that mention it, so a client may fold a slice of
 the stream and render the same step.
 */
module FoldLocality {
  import opened Wrappers
  import opened Events
  import opened Fold
  import opened FoldReplay

  /** The events that can touch the record of x. */
  predicate Mentions(e: Event, x: string) {
    || e.step == x
    || (e.payload.PlanExpanded? && x in e.payload.children)
    || (e.payload.PlanGenerated? && x in e.payload.children)
    || (e.payload.Handler? && e.payload.handlerParent == x)
    || (e.payload.ControlApplied? && e.payload.op == OP_BREAKPOINT_CLEAR && Arg(e.payload.args, "step") == x)
  }

  function Slice(es: seq<Event>, x: string): seq<Event> {
    if es == [] then []
    else
      var k := |es| - 1;
      Slice(es[..k], x) + if Mentions(es[k], x) then [es[k]] else []
  }

  function Record(s: State, x: string): Option<StepState> {
    if x in s.steps then Some(s.steps[x]) else None
  }

  /** The sequence number never regresses, nor starts below the state's. */
  predicate Ordered(s: State, es: seq<Event>) {
    && (forall i :: 0 <= i < |es| ==> s.seqNo <= es[i].seqNo)
    && (forall i, j :: 0 <= i < j < |es| ==> es[i].seqNo <= es[j].seqNo)
  }

  /** A handler id always names the same parent step. */
  predicate SameParents(es: seq<Event>) {
    forall a, b :: a in es && b in es && a.payload.Handler? && b.payload.Handler? && a.step == b.step ==>
      a.payload.handlerParent == b.payload.handlerParent
  }

  // ----- one event -----

  lemma {:induction false} ChildRecord(s: State, children: seq<string>, group: string, x: string)
    requires x != ""
    ensures Record(AddChildren(s, children, group), x) ==
            if x in children then Some(StepOf(s, x).(group := group)) else Record(s, x)
  {
    if children != [] {
      var k := |children| - 1;
      ChildRecord(s, children[..k], group, x);
      assert x in children <==> x in children[..k] || x == children[k];
    }
  }

  /** What an accepted, decodable event makes of one record: a function of that record and one bit. */
  function Effect(r: Option<StepState>, x: string, e: Event, known: bool): Option<StepState>
    requires x != ""
  {
    var st := if r.Some? then r.value else FreshStep(x);
    var moved :=
      match e.payload
      case PlanExpanded(parent, children, _, _) => if x in children then Some(st.(group := parent)) else r
      case PlanGenerated(generator, children, _) => if x in children then Some(st.(group := generator)) else r
      case ControlApplied(op, args) =>
        if op == OP_BREAKPOINT_CLEAR && Arg(args, "step") == x && r.Some? &&
           !(Arg(args, "released") == RELEASED_BREAKPOINT && st.held != "")
        then Some(st.(paused := false, held := "")) else r
      case Handler(_, parent, _, _, _) =>
        if parent == x && e.step != "" && !known then Some(st.(handlers := st.handlers + [e.step])) else r
      case _ => if StepScoped(e.payload) && e.step == x then Some(OnStep(st, e)) else r;
    if e.step == x && moved.Some? then Some(SeedStep(moved.value, e)) else moved
  }

  lemma StepEventRecord(s: State, e: Event, x: string)
    requires x != "" && StepScoped(e.payload)
    ensures Record(Seed(Put(s, e.step, OnStep(StepOf(s, e.step), e)), e), x) == Effect(Record(s, x), x, e, e.step in s.handlers)
  {
    if e.step == x { assert StepOf(s, x) == if x in s.steps then s.steps[x] else FreshStep(x); }
  }

  lemma HandlerRecord(s: State, e: Event, x: string)
    requires x != "" && e.payload.Handler?
    ensures Record(Seed(ApplyHandler(s, e), e), x) == Effect(Record(s, x), x, e, e.step in s.handlers)
  {
  }

  lemma ExpansionRecord(s: State, e: Event, x: string, g: ExpansionState)
    requires x != ""
    requires e.payload.PlanExpanded? || e.payload.PlanGenerated?
    requires g.children == e.payload.children
    requires g.parent == if e.payload.PlanExpanded? then e.payload.parent else e.payload.generator
    ensures Record(Seed(AddChildren(s.(expansions := s.expansions[g.parent := g]), g.children, g.parent), e), x) ==
            Effect(Record(s, x), x, e, e.step in s.handlers)
  {
    ChildRecord(s.(expansions := s.expansions[g.parent := g]), g.children, g.parent, x);
  }

  lemma ControlRecord(s: State, e: Event, x: string)
    requires x != "" && e.payload.ControlApplied?
    ensures Record(Seed(ApplyControl(s, e.payload.op, e.payload.args), e), x) ==
            Effect(Record(s, x), x, e, e.step in s.handlers)
  {
  }

  lemma RunEventRecord(s: State, e: Event, x: string)
    requires x != ""
    requires e.payload.RunStarted? || e.payload.RunFinished? || e.payload.PlanResolved? || e.payload.Unhandled?
    ensures Record(Seed(Dispatch(s, e), e), x) == Effect(Record(s, x), x, e, e.step in s.handlers)
  {
    assert Dispatch(s, e).steps == s.steps;
  }

  lemma ExpansionEventRecord(s: State, e: Event, x: string)
    requires x != "" && (e.payload.PlanExpanded? || e.payload.PlanGenerated?)
    ensures Record(Seed(Dispatch(s, e), e), x) == Effect(Record(s, x), x, e, e.step in s.handlers)
  {
    match e.payload
    case PlanExpanded(parent, children, count, skipped) =>
      ExpansionRecord(s, e, x, ExpansionState(parent, children, count, skipped));
    case PlanGenerated(generator, children, nodes) =>
      ExpansionRecord(s, e, x, ExpansionState(generator, children, nodes, 0));
  }

  lemma DispatchRecord(s: State, e: Event, x: string)
    requires x != "" && !e.payload.Undecodable?
    ensures Record(Seed(Dispatch(s, e), e), x) == Effect(Record(s, x), x, e, e.step in s.handlers)
  {
    if StepScoped(e.payload) {
      StepEventRecord(s, e, x);
    } else if e.payload.PlanExpanded? || e.payload.PlanGenerated? {
      ExpansionEventRecord(s, e, x);
    } else if e.payload.ControlApplied? {
      ControlRecord(s, e, x);
    } else if e.payload.Handler? {
      HandlerRecord(s, e, x);
    } else {
      RunEventRecord(s, e, x);
    }
  }

  lemma NextRecord(s: State, e: Event, x: string)
    requires x != "" && Accepts(s, e)
    ensures Record(Next(s, e), x) ==
            if e.payload.Undecodable? then Record(s, x) else Effect(Record(s, x), x, e, e.step in s.handlers)
  {
    if !e.payload.Undecodable? { DispatchRecord(Admit(s, e), e, x); }
  }

  lemma EffectUnmentioned(r: Option<StepState>, x: string, e: Event, known: bool)
    requires x != "" && !Mentions(e, x)
    ensures Effect(r, x, e, known) == r
  {
  }

  lemma DispatchHandlers(s: State, e: Event)
    requires !e.payload.Handler?
    ensures Dispatch(s, e).handlers == s.handlers
  {
    match e.payload
    case PlanExpanded(parent, children, count, skipped) =>
      AddChildrenLabels(s.(expansions := s.expansions[parent := ExpansionState(parent, children, count, skipped)]),
                        children, parent);
    case PlanGenerated(generator, children, nodes) =>
      AddChildrenLabels(s.(expansions := s.expansions[generator := ExpansionState(generator, children, nodes, 0)]),
                        children, generator);
    case _ =>
  }

  lemma ApplyHandlerKeys(s: State, e: Event)
    requires e.payload.Handler?
    ensures ApplyHandler(s, e).handlers.Keys == s.handlers.Keys + if e.step != "" then {e.step} else {}
  {
  }

  /** The handlers known after an event: the ones known before, and its own. */
  lemma NextHandlers(s: State, e: Event)
    requires Accepts(s, e)
    ensures Next(s, e).handlers.Keys == s.handlers.Keys + if e.payload.Handler? && e.step != "" then {e.step} else {}
  {
    if e.payload.Handler? {
      ApplyHandlerKeys(Admit(s, e), e);
    } else {
      DispatchHandlers(Admit(s, e), e);
    }
  }

  lemma NextSeq(s: State, e: Event)
    ensures Next(s, e).seqNo == if e.seqNo > s.seqNo then e.seqNo else s.seqNo
  {
    if Accepts(s, e) && !e.payload.Undecodable? { DispatchKeepsEnvelope(Admit(s, e), e); }
  }

  // ----- whole streams -----

  lemma {:induction false} RunSeqBound(s: State, es: seq<Event>, n: nat)
    requires s.seqNo <= n && forall e :: e in es ==> e.seqNo <= n
    ensures Run(s, es).seqNo <= n
  {
    if es != [] {
      var k := |es| - 1;
      RunSeqBound(s, es[..k], n);
      NextSeq(Run(s, es[..k]), es[k]);
    }
  }

  lemma {:induction false} SliceMembers(es: seq<Event>, x: string)
    ensures forall e :: e in Slice(es, x) ==> e in es
  {
    if es != [] {
      SliceMembers(es[..|es| - 1], x);
    }
  }

  lemma {:induction false} SliceOrdered(s: State, es: seq<Event>, x: string)
    requires Ordered(s, es)
    ensures Ordered(s, Slice(es, x))
  {
    if es != [] {
      var k := |es| - 1;
      SliceOrdered(s, es[..k], x);
      SliceMembers(es[..k], x);
      var cut := Slice(es[..k], x);
      forall i | 0 <= i < |cut| ensures cut[i].seqNo <= es[k].seqNo { assert cut[i] in es[..k]; }
    }
  }

  lemma RunOneMore(s: State, es: seq<Event>, e: Event)
    ensures Run(s, es + [e]) == Next(Run(s, es), e)
  {
    assert (es + [e])[..|es|] == es;
  }

  lemma SliceOneMore(es: seq<Event>, e: Event, x: string)
    ensures Slice(es + [e], x) == Slice(es, x) + if Mentions(e, x) then [e] else []
  {
    assert (es + [e])[..|es|] == es;
  }

  // ----- who a handler is first attached to -----

  /** The parent the first event of handler h names. */
  function FirstParent(es: seq<Event>, h: string): Option<string> {
    if es == [] then None
    else
      var k := |es| - 1;
      var first := FirstParent(es[..k], h);
      if first.None? && es[k].payload.Handler? && es[k].step == h then Some(es[k].payload.handlerParent) else first
  }

  predicate Attaches(e: Event, h: string, x: string) {
    e.payload.Handler? && e.step == h && e.payload.handlerParent == x
  }

  ghost predicate AttachedTo(es: seq<Event>, h: string, x: string) {
    exists e :: e in es && Attaches(e, h, x)
  }

  lemma AttachedOneMore(es: seq<Event>, e: Event, h: string, x: string)
    ensures AttachedTo(es + [e], h, x) <==> AttachedTo(es, h, x) || Attaches(e, h, x)
  {
    assert e in es + [e];
    if AttachedTo(es, h, x) {
      var d :| d in es && Attaches(d, h, x);
      assert d in es + [e];
    }
  }

  lemma FirstParentOneMore(es: seq<Event>, e: Event, h: string)
    ensures FirstParent(es + [e], h) ==
            if FirstParent(es, h).None? && e.payload.Handler? && e.step == h then Some(e.payload.handlerParent)
            else FirstParent(es, h)
  {
    assert (es + [e])[..|es|] == es;
  }

  lemma {:induction false} FirstParentAttaches(es: seq<Event>, h: string, x: string)
    ensures FirstParent(es, h) == Some(x) ==> AttachedTo(es, h, x)
    ensures AttachedTo(es, h, x) ==> FirstParent(es, h).Some?
  {
    if es != [] {
      var k := |es| - 1;
      FirstParentAttaches(es[..k], h, x);
      AttachedOneMore(es[..k], es[k], h, x);
      FirstParentOneMore(es[..k], es[k], h);
      assert es == es[..k] + [es[k]];
    }
  }

  /** What the slice of x shows of the first parent of h: everything if h is x itself, else only x. */
  ghost predicate SliceShows(es: seq<Event>, x: string, h: string) {
    FirstParent(Slice(es, x), h) ==
    if h == x then FirstParent(es, h) else if AttachedTo(es, h, x) then Some(x) else None
  }

  lemma ShownMentioned(es: seq<Event>, e: Event, x: string, h: string)
    requires SliceShows(es, x, h) && Mentions(e, x)
    ensures SliceShows(es + [e], x, h)
  {
    SliceOneMore(es, e, x);
    AttachedOneMore(es, e, h, x);
    FirstParentOneMore(es, e, h);
    FirstParentOneMore(Slice(es, x), e, h);
  }

  lemma ShownUnmentioned(es: seq<Event>, e: Event, x: string, h: string)
    requires SliceShows(es, x, h) && !Mentions(e, x)
    ensures SliceShows(es + [e], x, h)
  {
    SliceOneMore(es, e, x);
    AttachedOneMore(es, e, h, x);
    FirstParentOneMore(es, e, h);
    assert Slice(es, x) + [] == Slice(es, x);
  }

  lemma {:induction false} SliceFirstParent(es: seq<Event>, x: string, h: string)
    ensures SliceShows(es, x, h)
  {
    if es == [] {
      assert Slice(es, x) == [];
    } else {
      var k := |es| - 1;
      SliceFirstParent(es[..k], x, h);
      if Mentions(es[k], x) { ShownMentioned(es[..k], es[k], x, h); } else { ShownUnmentioned(es[..k], es[k], x, h); }
      assert es == es[..k] + [es[k]];
    }
  }

  lemma {:induction false} RunHandlers(s: State, es: seq<Event>, h: string)
    requires Ordered(s, es)
    ensures h in Run(s, es).handlers <==> h in s.handlers || (h != "" && FirstParent(es, h).Some?)
  {
    if es != [] {
      var k := |es| - 1;
      RunHandlers(s, es[..k], h);
      RunSeqBound(s, es[..k], es[k].seqNo);
      NextHandlers(Run(s, es[..k]), es[k]);
    }
  }

  // ----- sufficient -----

  /**
   Every new handler that some event attaches to x is attached to x by its first event. The handler called
   like the step itself is excepted: all its events mention x.
   */
  ghost predicate FirstOwner(s: State, es: seq<Event>, x: string) {
    forall h :: h != "" && h != x && h !in s.handlers && AttachedTo(es, h, x) ==> FirstParent(es, h) == Some(x)
  }

  /** The one bit an event's effect on x depends on only matters for a handler attached to x. */
  lemma EffectIgnoresOthers(r: Option<StepState>, x: string, e: Event, known: bool, known': bool)
    requires x != "" && (Attaches(e, e.step, x) && e.step != "" ==> known == known')
    ensures Effect(r, x, e, known) == Effect(r, x, e, known')
  {
  }

  lemma FirstOwnerFront(s: State, es: seq<Event>, e: Event, x: string)
    requires FirstOwner(s, es + [e], x)
    ensures FirstOwner(s, es, x)
  {
    forall h | h != "" && h != x && h !in s.handlers && AttachedTo(es, h, x) ensures FirstParent(es, h) == Some(x) {
      AttachedOneMore(es, e, h, x);
      FirstParentAttaches(es, h, x);
      FirstParentOneMore(es, e, h);
    }
  }

  /** When an event attaches a handler to x, the whole run knows the handler exactly when the slice does. */
  lemma SameKnown(s: State, es: seq<Event>, e: Event, x: string)
    requires Ordered(s, es) && FirstOwner(s, es + [e], x) && Attaches(e, e.step, x) && e.step != ""
    ensures e.step in Run(s, es).handlers <==> e.step in Run(s, Slice(es, x)).handlers
  {
    var h := e.step;
    RunHandlers(s, es, h);
    SliceOrdered(s, es, x);
    RunHandlers(s, Slice(es, x), h);
    SliceFirstParent(es, x, h);
    AttachedOneMore(es, e, h, x);
    FirstParentOneMore(es, e, h);
    FirstParentAttaches(es, h, x);
  }

  lemma MentionedAgrees(s: State, es: seq<Event>, e: Event, x: string)
    requires x != "" && Ordered(s, es) && FirstOwner(s, es + [e], x) && Mentions(e, x)
    requires Accepts(Run(s, es), e) && Accepts(Run(s, Slice(es, x)), e)
    requires Record(Run(s, es), x) == Record(Run(s, Slice(es, x)), x)
    ensures Record(Next(Run(s, es), e), x) == Record(Next(Run(s, Slice(es, x)), e), x)
  {
    var a, b := Run(s, es), Run(s, Slice(es, x));
    NextRecord(a, e, x);
    NextRecord(b, e, x);
    if Attaches(e, e.step, x) && e.step != "" { SameKnown(s, es, e, x); }
    EffectIgnoresOthers(Record(a, x), x, e, e.step in a.handlers, e.step in b.handlers);
  }

  lemma UnmentionedKeeps(a: State, e: Event, x: string)
    requires x != "" && Accepts(a, e) && !Mentions(e, x)
    ensures Record(Next(a, e), x) == Record(a, x)
  {
    NextRecord(a, e, x);
    EffectUnmentioned(Record(a, x), x, e, e.step in a.handlers);
  }

  lemma OneMoreAgrees(s: State, es: seq<Event>, e: Event, x: string)
    requires x != "" && Ordered(s, es + [e]) && FirstOwner(s, es + [e], x)
    requires Ordered(s, es) && Record(Run(s, es), x) == Record(Run(s, Slice(es, x)), x)
    ensures Record(Run(s, es + [e]), x) == Record(Run(s, Slice(es + [e], x)), x)
  {
    AllAccept(s, es, e);
    SliceMembers(es, x);
    AcceptsAfter(s, Slice(es, x), e);
    RunOneMore(s, es, e);
    SliceOneMore(es, e, x);
    if Mentions(e, x) {
      RunOneMore(s, Slice(es, x), e);
      MentionedAgrees(s, es, e, x);
    } else {
      assert Slice(es, x) + [] == Slice(es, x);
      UnmentionedKeeps(Run(s, es), e, x);
    }
  }

  lemma AcceptsAfter(s: State, es: seq<Event>, e: Event)
    requires s.seqNo <= e.seqNo && forall d :: d in es ==> d.seqNo <= e.seqNo
    ensures Accepts(Run(s, es), e)
  {
    RunSeqBound(s, es, e.seqNo);
  }

  lemma AllAccept(s: State, es: seq<Event>, e: Event)
    requires Ordered(s, es + [e])
    ensures s.seqNo <= e.seqNo && (forall d :: d in es ==> d.seqNo <= e.seqNo) && Accepts(Run(s, es), e)
  {
    var all := es + [e];
    assert all[|es|] == e;
    forall d | d in es ensures d.seqNo <= e.seqNo {
      var i :| 0 <= i < |es| && es[i] == d;
      assert all[i] == d;
    }
    AcceptsAfter(s, es, e);
  }

  lemma {:induction false} FirstOwnerSuffices(s: State, es: seq<Event>, x: string)
    requires x != "" && Ordered(s, es) && FirstOwner(s, es, x)
    ensures Record(Run(s, es), x) == Record(Run(s, Slice(es, x)), x)
  {
    if es != [] {
      var k := |es| - 1;
      assert es == es[..k] + [es[k]];
      FirstOwnerFront(s, es[..k], es[k], x);
      FirstOwnerSuffices(s, es[..k], x);
      OneMoreAgrees(s, es[..k], es[k], x);
    }
  }

  // ----- necessary -----

  /** How often a record lists a handler. */
  function Links(r: Option<StepState>, h: string): nat {
    if r.Some? then multiset(r.value.handlers)[h] else 0
  }

  lemma OnStepKeepsLinks(st: StepState, e: Event)
    requires StepScoped(e.payload)
    ensures OnStep(st, e).handlers == st.handlers
  {
  }

  lemma StepEventLinks(r: Option<StepState>, x: string, e: Event, known: bool, h: string)
    requires x != "" && StepScoped(e.payload)
    ensures Links(Effect(r, x, e, known), h) == Links(r, h)
  {
    var st := if r.Some? then r.value else FreshStep(x);
    OnStepKeepsLinks(st, e);
    assert Effect(r, x, e, known) == if e.step == x then Some(SeedStep(OnStep(st, e), e)) else r;
  }

  lemma HandlerLinks(r: Option<StepState>, x: string, e: Event, known: bool, h: string)
    requires x != "" && e.payload.Handler?
    ensures Links(Effect(r, x, e, known), h) ==
            Links(r, h) + if Attaches(e, h, x) && h != "" && !known then 1 else 0
  {
  }

  lemma OtherEventLinks(r: Option<StepState>, x: string, e: Event, known: bool, h: string)
    requires x != "" && !e.payload.Handler? && !StepScoped(e.payload)
    ensures Links(Effect(r, x, e, known), h) == Links(r, h)
  {
  }

  lemma EffectOnLinks(r: Option<StepState>, x: string, e: Event, known: bool, h: string)
    requires x != ""
    ensures Links(Effect(r, x, e, known), h) ==
            Links(r, h) + if Attaches(e, h, x) && h != "" && !known then 1 else 0
  {
    if StepScoped(e.payload) {
      StepEventLinks(r, x, e, known, h);
    } else if e.payload.Handler? {
      HandlerLinks(r, x, e, known, h);
    } else {
      OtherEventLinks(r, x, e, known, h);
    }
  }

  /** A run lists a new handler under x once if its first event names x, and never otherwise. */
  lemma {:induction false} RunLinks(s: State, es: seq<Event>, x: string, h: string)
    requires x != "" && h != "" && h !in s.handlers && Ordered(s, es)
    ensures Links(Record(Run(s, es), x), h) ==
            Links(Record(s, x), h) + if FirstParent(es, h) == Some(x) then 1 else 0
  {
    if es != [] {
      var k := |es| - 1;
      RunLinks(s, es[..k], x, h);
      RunHandlers(s, es[..k], h);
      RunSeqBound(s, es[..k], es[k].seqNo);
      var a := Run(s, es[..k]);
      NextRecord(a, es[k], x);
      EffectOnLinks(Record(a, x), x, es[k], es[k].step in a.handlers, h);
    }
  }

  lemma FirstOwnerNecessary(s: State, es: seq<Event>, x: string, h: string)
    requires x != "" && Ordered(s, es) && Record(Run(s, es), x) == Record(Run(s, Slice(es, x)), x)
    requires h != "" && h != x && h !in s.handlers && AttachedTo(es, h, x)
    ensures FirstParent(es, h) == Some(x)
  {
    RunLinks(s, es, x, h);
    SliceOrdered(s, es, x);
    RunLinks(s, Slice(es, x), x, h);
    SliceFirstParent(es, x, h);
  }

  /**
   The record of x after a whole stream is its record after only the events that mention x exactly when
   every new handler ever attached to x is attached to it first. The start may be any snapshot, so this
   covers a client that joined mid-run.
   */
  lemma LocalityExactly(s: State, es: seq<Event>, x: string)
    requires x != "" && Ordered(s, es)
    ensures Record(Run(s, es), x) == Record(Run(s, Slice(es, x)), x) <==> FirstOwner(s, es, x)
  {
    if FirstOwner(s, es, x) { FirstOwnerSuffices(s, es, x); }
    if Record(Run(s, es), x) == Record(Run(s, Slice(es, x)), x) {
      forall h | h != "" && h != x && h !in s.handlers && AttachedTo(es, h, x) ensures FirstParent(es, h) == Some(x) {
        FirstOwnerNecessary(s, es, x, h);
      }
    }
  }

  /** In particular whenever a handler id always names the same parent. */
  lemma Locality(s: State, es: seq<Event>, x: string)
    requires x != "" && Ordered(s, es) && SameParents(es)
    ensures Record(Run(s, es), x) == Record(Run(s, Slice(es, x)), x)
  {
    forall h | AttachedTo(es, h, x) ensures FirstParent(es, h) == Some(x) {
      FirstParentAttaches(es, h, x);
      var y := FirstParent(es, h).value;
      FirstParentAttaches(es, h, y);
      var d :| d in es && Attaches(d, h, x);
      var e :| e in es && Attaches(e, h, y);
    }
    LocalityExactly(s, es, x);
  }

  // ----- a stream on which it fails -----

  function StartedUnder(seqNo: nat, parent: string): Event {
    Event(seqNo, "run", ZERO_TIME, "cleanup", "", 1, Handler(HandlerStarted, parent, "always", false, ""))
  }

  lemma FirstDecides(es: seq<Event>, h: string, x: string)
    requires |es| == 2 && es[0].payload.Handler? && es[0].step == h && Attaches(es[1], h, x)
    ensures AttachedTo(es, h, x) && FirstParent(es, h) == Some(es[0].payload.handlerParent)
  {
    var front := es[..1];
    assert es[1] in es && front[..0] == [];
    assert FirstParent(front[..0], h) == None;
    assert FirstParent(front, h) == Some(es[0].payload.handlerParent);
  }

  /** Two events of one new handler, the second naming x and the first not, always tell run and slice apart. */
  lemma MovedHandlerDiffers(s: State, es: seq<Event>, h: string, x: string)
    requires |es| == 2 && x != "" && h != "" && h != x && h !in s.handlers && s.seqNo <= es[0].seqNo <= es[1].seqNo
    requires es[0].payload.Handler? && es[0].step == h && es[0].payload.handlerParent != x && Attaches(es[1], h, x)
    ensures Ordered(s, es) && Record(Run(s, es), x) != Record(Run(s, Slice(es, x)), x)
  {
    FirstDecides(es, h, x);
    LocalityExactly(s, es, x);
  }

  /** A handler that starts under a and is then reported under b: only the slice of b lists it there. */
  lemma MovedHandlerBreaksLocality()
    ensures var es := [StartedUnder(1, "a"), StartedUnder(2, "b")];
            && Ordered(EMPTY_STATE, es)
            && Record(Run(EMPTY_STATE, es), "b") != Record(Run(EMPTY_STATE, Slice(es, "b")), "b")
  {
    var es := [StartedUnder(1, "a"), StartedUnder(2, "b")];
    MovedHandlerDiffers(EMPTY_STATE, es, "cleanup", "b");
  }
}
