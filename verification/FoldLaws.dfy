/**
 What a step's record shows after a whole stream, told by the events alone: for each field, which event of
 the stream decides it, and how.
 */
module FoldLaws {
  import opened Wrappers
  import opened Events
  import opened Fold
  import opened FoldLocality

  /** What an event can decide about the subject called x. */
  datatype Topic =
    | Ending | Using | Starting | Retrying | Creating | Serving | Grouping | Holding     // of a step
    | Launching | Planning | Concluding | Pausing                                        // of the run
    | HandlerStarting | HandlerEnding | HandlerFailing | HandlerNaming                   // of a handler
    | Expanding                                                                          // of an expansion

  /** A control event that clears the breakpoint or hold of step x. */
  predicate Clears(e: Event, x: string) {
    e.payload.ControlApplied? && e.payload.op == "breakpoint.clear" && Arg(e.payload.args, "step") == x
  }

  /** It only releases an armed breakpoint, and leaves a step held for another reason where it is. */
  predicate ClearsBreakpoint(e: Event, x: string) {
    Clears(e, x) && Arg(e.payload.args, "released") == "breakpoint"
  }

  predicate Expands(e: Event, x: string) {
    (e.payload.PlanExpanded? && x in e.payload.children) || (e.payload.PlanGenerated? && x in e.payload.children)
  }

  predicate About(t: Topic, e: Event, x: string) {
    var p := e.payload;
    match t
    case Ending => e.step == x && (p.StepStarted? || p.StepFinished? || p.StepRetried?)
    case Using => e.step == x && (p.StepFinished? || p.StepRetried?)
    case Starting => e.step == x && (p.StepStarted? || p.StepRetried?)
    case Retrying => e.step == x && p.StepRetried?
    case Creating => e.step == x && p.StepCreated?
    case Serving => e.step == x && (p.ServiceReady? || p.StepRetried?)
    case Grouping => Expands(e, x) || (e.step == x && p.StepCreated? && (p.group != "" || e.group != ""))
    case Holding =>
      || (e.step == x && (p.BreakpointHit? || p.StepStarted? || p.StepFinished? || p.StepRetried?))
      || (Clears(e, x) && !ClearsBreakpoint(e, x))
    case Launching => p.RunStarted?
    case Planning => p.RunStarted? || p.PlanResolved?
    case Concluding => p.RunFinished?
    case Pausing => p.RunFinished? || (p.ControlApplied? && (p.op == "run.pause" || p.op == "run.resume"))
    case HandlerStarting => p.Handler? && e.step == x && p.phase.HandlerStarted?
    case HandlerEnding => p.Handler? && e.step == x && !p.phase.HandlerStarted?
    case HandlerFailing => p.Handler? && e.step == x && p.phase.HandlerFailed?
    case HandlerNaming => p.Handler? && e.step == x && p.handlerKind != ""
    case Expanding => (p.PlanExpanded? && p.parent == x) || (p.PlanGenerated? && p.generator == x)
  }

  /** The last event about a topic. */
  function Last(es: seq<Event>, t: Topic, x: string): Option<Event> {
    if es == [] then None
    else if About(t, es[|es| - 1], x) then Some(es[|es| - 1])
    else Last(es[..|es| - 1], t, x)
  }

  /** The i-th event is about the topic, and no later one is. */
  predicate IsLast(es: seq<Event>, i: nat, t: Topic, x: string) {
    i < |es| && About(t, es[i], x) && forall j :: i < j < |es| ==> !About(t, es[j], x)
  }

  lemma IsLastLonger(es: seq<Event>, i: nat, t: Topic, x: string)
    requires es != [] && IsLast(es[..|es| - 1], i, t, x) && !About(t, es[|es| - 1], x)
    ensures IsLast(es, i, t, x) && es[i] == es[..|es| - 1][i]
  {
    var front := es[..|es| - 1];
    assert forall j :: 0 <= j < |front| ==> front[j] == es[j];
  }

  lemma {:induction false} LastMeans(es: seq<Event>, t: Topic, x: string)
    ensures Last(es, t, x).None? ==> forall i :: 0 <= i < |es| ==> !About(t, es[i], x)
    ensures Last(es, t, x).Some? ==> exists i: nat :: IsLast(es, i, t, x) && es[i] == Last(es, t, x).value
  {
    if es != [] {
      var k := |es| - 1;
      if About(t, es[k], x) {
        assert IsLast(es, k, t, x);
      } else {
        LastMeans(es[..k], t, x);
        if Last(es[..k], t, x).Some? {
          var i: nat :| IsLast(es[..k], i, t, x) && es[..k][i] == Last(es[..k], t, x).value;
          IsLastLonger(es, i, t, x);
        } else {
          forall i | 0 <= i < |es| ensures !About(t, es[i], x) { assert i < k ==> es[i] == es[..k][i]; }
        }
      }
    }
  }

  // ----- one event, one record -----

  /** The record as it is shown, fresh when there is none. */
  function Shown(r: Option<StepState>, x: string): StepState {
    if r.Some? then r.value else FreshStep(x)
  }

  /** The record of x after the first events of a run. */
  function RecordAfter(es: seq<Event>, x: string): Option<StepState> {
    Record(Run(EMPTY_STATE, es), x)
  }

  ghost predicate KnownAfter(es: seq<Event>, h: string) {
    h in Run(EMPTY_STATE, es).handlers
  }

  lemma OrderedFront(es: seq<Event>)
    requires es != [] && Ordered(EMPTY_STATE, es)
    ensures Ordered(EMPTY_STATE, es[..|es| - 1]) && Accepts(Run(EMPTY_STATE, es[..|es| - 1]), es[|es| - 1])
  {
    var k := |es| - 1;
    assert es == es[..k] + [es[k]];
    AllAccept(EMPTY_STATE, es[..k], es[k]);
  }

  lemma RecordLast(es: seq<Event>, x: string)
    requires es != [] && x != "" && Ordered(EMPTY_STATE, es)
    ensures var k := |es| - 1;
            var r := RecordAfter(es[..k], x);
            RecordAfter(es, x) ==
            if es[k].payload.Undecodable? then r else Effect(r, x, es[k], KnownAfter(es[..k], es[k].step))
  {
    OrderedFront(es);
    NextRecord(Run(EMPTY_STATE, es[..|es| - 1]), es[|es| - 1], x);
  }

  lemma ScopedEffect(r: Option<StepState>, x: string, e: Event, known: bool)
    requires x != "" && StepScoped(e.payload)
    ensures Effect(r, x, e, known) == if e.step == x then Some(SeedStep(OnStep(Shown(r, x), e), e)) else r
  {
  }

  /** The records differ in the group, the hold, the handlers and the attempt, at most. */
  predicate SameBut(st: StepState, st': StepState) {
    st' == st.(group := st'.group, paused := st'.paused, held := st'.held, handlers := st'.handlers, attempt := st'.attempt)
  }

  lemma ExpansionEffect(r: Option<StepState>, x: string, e: Event, known: bool)
    requires x != "" && (e.payload.PlanExpanded? || e.payload.PlanGenerated?)
    ensures var st := Shown(r, x).(group := GroupGiven(e));
            Effect(r, x, e, known) ==
            if Expands(e, x) then Some(if e.step == x then SeedStep(st, e) else st)
            else if e.step == x && r.Some? then Some(SeedStep(r.value, e)) else r
  {
  }

  lemma ExpansionSameBut(r: Option<StepState>, x: string, e: Event, known: bool)
    requires x != "" && (e.payload.PlanExpanded? || e.payload.PlanGenerated?)
    ensures SameBut(Shown(r, x), Shown(Effect(r, x, e, known), x))
  {
    ExpansionEffect(r, x, e, known);
  }

  lemma ControlSameBut(r: Option<StepState>, x: string, e: Event, known: bool)
    requires x != "" && e.payload.ControlApplied?
    ensures SameBut(Shown(r, x), Shown(Effect(r, x, e, known), x))
  {
  }

  lemma HandlerSameBut(r: Option<StepState>, x: string, e: Event, known: bool)
    requires x != "" && e.payload.Handler?
    ensures SameBut(Shown(r, x), Shown(Effect(r, x, e, known), x))
  {
  }

  lemma RunSameBut(r: Option<StepState>, x: string, e: Event, known: bool)
    requires x != "" && (e.payload.RunStarted? || e.payload.RunFinished? || e.payload.PlanResolved? || e.payload.Unhandled? || e.payload.Undecodable?)
    ensures SameBut(Shown(r, x), Shown(Effect(r, x, e, known), x))
  {
    assert Effect(r, x, e, known) == if e.step == x && r.Some? then Some(SeedStep(r.value, e)) else r;
  }

  /** Events of other kinds touch nothing else. */
  lemma OtherEffect(r: Option<StepState>, x: string, e: Event, known: bool)
    requires x != "" && !StepScoped(e.payload)
    ensures SameBut(Shown(r, x), Shown(Effect(r, x, e, known), x))
  {
    if e.payload.PlanExpanded? || e.payload.PlanGenerated? {
      ExpansionSameBut(r, x, e, known);
    } else if e.payload.ControlApplied? {
      ControlSameBut(r, x, e, known);
    } else if e.payload.Handler? {
      HandlerSameBut(r, x, e, known);
    } else {
      RunSameBut(r, x, e, known);
    }
  }

  // ----- state, exit code, error, end -----

  lemma EndingEffect(r: Option<StepState>, x: string, e: Event, known: bool)
    requires x != "" && !e.payload.Undecodable?
    ensures var st, st' := Shown(r, x), Shown(Effect(r, x, e, known), x);
            && (!About(Ending, e, x) ==>
                  st'.state == st.state && st'.exitCode == st.exitCode && st'.error == st.error && st'.finished == st.finished)
            && (About(Ending, e, x) && e.payload.StepFinished? ==>
                  && st'.state == e.payload.state && st'.exitCode == e.payload.exitCode
                  && st'.error == e.payload.error && st'.finished == e.ts)
            && (About(Ending, e, x) && !e.payload.StepFinished? ==>
                  st'.state == "" && st'.exitCode == 0 && st'.error == "" && st'.finished == ZERO_TIME)
  {
    if StepScoped(e.payload) { ScopedEffect(r, x, e, known); } else { OtherEffect(r, x, e, known); }
  }

  /** A step shows how its last finish left it, unless it started or was retried since. */
  lemma {:induction false} EndingLaw(es: seq<Event>, x: string)
    requires x != "" && Ordered(EMPTY_STATE, es)
    ensures var st, last := Shown(RecordAfter(es, x), x), Last(es, Ending, x);
            if last.Some? && last.value.payload.StepFinished? then
              var e := last.value;
              && st.state == e.payload.state && st.exitCode == e.payload.exitCode
              && st.error == e.payload.error && st.finished == e.ts
            else st.state == "" && st.exitCode == 0 && st.error == "" && st.finished == ZERO_TIME
  {
    if es != [] {
      var k := |es| - 1;
      OrderedFront(es);
      EndingLaw(es[..k], x);
      RecordLast(es, x);
      if !es[k].payload.Undecodable? { EndingEffect(RecordAfter(es[..k], x), x, es[k], KnownAfter(es[..k], es[k].step)); }
    }
  }

  // ----- usage, start, service -----

  lemma RestartEffect(r: Option<StepState>, x: string, e: Event, known: bool)
    requires x != "" && !e.payload.Undecodable?
    ensures var st, st' := Shown(r, x), Shown(Effect(r, x, e, known), x);
            && st'.usage == (if !About(Using, e, x) then st.usage else if e.payload.StepFinished? then e.payload.usage else None)
            && st'.started == (if !About(Starting, e, x) then st.started else if e.payload.StepStarted? then e.ts else ZERO_TIME)
            && st'.service == (if !About(Serving, e, x) then st.service
                               else if e.payload.ServiceReady? then Some(ServiceState(e.ts, e.payload.endpoints)) else None)
  {
    if StepScoped(e.payload) { ScopedEffect(r, x, e, known); } else { OtherEffect(r, x, e, known); }
  }

  /**
   Usage is that of the last finish unless the step was retried since; the start is that of the last start unless
   it was retried since; and the service is as last reported ready unless it was retried since.
   */
  lemma {:induction false} RestartLaw(es: seq<Event>, x: string)
    requires x != "" && Ordered(EMPTY_STATE, es)
    ensures var st := Shown(RecordAfter(es, x), x);
            var u, s, v := Last(es, Using, x), Last(es, Starting, x), Last(es, Serving, x);
            && st.usage == (if u.Some? && u.value.payload.StepFinished? then u.value.payload.usage else None)
            && st.started == (if s.Some? && s.value.payload.StepStarted? then s.value.ts else ZERO_TIME)
            && st.service == (if v.Some? && v.value.payload.ServiceReady?
                              then Some(ServiceState(v.value.ts, v.value.payload.endpoints)) else None)
  {
    if es != [] {
      var k := |es| - 1;
      OrderedFront(es);
      RestartLaw(es[..k], x);
      RecordLast(es, x);
      if !es[k].payload.Undecodable? { RestartEffect(RecordAfter(es[..k], x), x, es[k], KnownAfter(es[..k], es[k].step)); }
    }
  }

  // ----- kind, needs, service flag, group -----

  lemma CreationEffect(r: Option<StepState>, x: string, e: Event, known: bool)
    requires x != "" && !e.payload.Undecodable?
    ensures var st, st' := Shown(r, x), Shown(Effect(r, x, e, known), x);
            if About(Creating, e, x) then
              st'.kind == e.payload.kind && st'.needs == e.payload.needs && st'.isService == e.payload.service
            else st'.kind == st.kind && st'.needs == st.needs && st'.isService == st.isService
  {
    if StepScoped(e.payload) { ScopedEffect(r, x, e, known); } else { OtherEffect(r, x, e, known); }
  }

  /** The last step.created fixes what kind of step it is, what it needs and whether it is a service. */
  lemma {:induction false} CreationLaw(es: seq<Event>, x: string)
    requires x != "" && Ordered(EMPTY_STATE, es)
    ensures var st, c := Shown(RecordAfter(es, x), x), Last(es, Creating, x);
            if c.Some? && c.value.payload.StepCreated? then
              st.kind == c.value.payload.kind && st.needs == c.value.payload.needs && st.isService == c.value.payload.service
            else st.kind == "" && st.needs == [] && !st.isService
  {
    if es != [] {
      var k := |es| - 1;
      OrderedFront(es);
      CreationLaw(es[..k], x);
      RecordLast(es, x);
      if !es[k].payload.Undecodable? { CreationEffect(RecordAfter(es[..k], x), x, es[k], KnownAfter(es[..k], es[k].step)); }
    }
  }

  /** The group an event puts its step in. */
  function GroupGiven(e: Event): string {
    match e.payload
    case PlanExpanded(parent, _, _, _) => parent
    case PlanGenerated(generator, _, _) => generator
    case StepCreated(_, _, _, group) => if group != "" then group else e.group
    case _ => ""
  }

  lemma GroupEffect(r: Option<StepState>, x: string, e: Event, known: bool)
    requires x != "" && !e.payload.Undecodable?
    ensures Shown(Effect(r, x, e, known), x).group == if About(Grouping, e, x) then GroupGiven(e) else Shown(r, x).group
  {
    if StepScoped(e.payload) { ScopedEffect(r, x, e, known); }
  }

  /** The group is the one last given: by an expansion to its children, or by a step.created that names one. */
  lemma {:induction false} GroupLaw(es: seq<Event>, x: string)
    requires x != "" && Ordered(EMPTY_STATE, es)
    ensures var g := Last(es, Grouping, x);
            Shown(RecordAfter(es, x), x).group == if g.Some? then GroupGiven(g.value) else ""
  {
    if es != [] {
      var k := |es| - 1;
      OrderedFront(es);
      GroupLaw(es[..k], x);
      RecordLast(es, x);
      if !es[k].payload.Undecodable? { GroupEffect(RecordAfter(es[..k], x), x, es[k], KnownAfter(es[..k], es[k].step)); }
    }
  }

  // ----- cached -----

  predicate Caches(e: Event, x: string) {
    e.step == x && (e.payload.CacheHit? || (e.payload.StepFinished? && e.payload.wasCached))
  }

  ghost predicate EverCached(es: seq<Event>, x: string) {
    exists i :: 0 <= i < |es| && Caches(es[i], x)
  }

  lemma CachedEffect(r: Option<StepState>, x: string, e: Event, known: bool)
    requires x != "" && !e.payload.Undecodable?
    ensures Shown(Effect(r, x, e, known), x).cached <==> Shown(r, x).cached || Caches(e, x)
  {
    if StepScoped(e.payload) { ScopedEffect(r, x, e, known); } else { OtherEffect(r, x, e, known); }
  }

  lemma CachedLast(es: seq<Event>, x: string)
    requires es != []
    ensures EverCached(es, x) <==> EverCached(es[..|es| - 1], x) || Caches(es[|es| - 1], x)
  {
    var front := es[..|es| - 1];
    if i :| 0 <= i < |front| && Caches(front[i], x) { assert Caches(es[i], x); }
    if i :| 0 <= i < |es| && Caches(es[i], x) { assert i < |front| ==> Caches(front[i], x); }
  }

  /** A step is cached exactly when some cache hit or cached finish of it occurred. */
  lemma {:induction false} CachedLaw(es: seq<Event>, x: string)
    requires x != "" && Ordered(EMPTY_STATE, es)
    ensures Shown(RecordAfter(es, x), x).cached <==> EverCached(es, x)
  {
    if es != [] {
      var k := |es| - 1;
      OrderedFront(es);
      CachedLaw(es[..k], x);
      CachedLast(es, x);
      RecordLast(es, x);
      if !es[k].payload.Undecodable? { CachedEffect(RecordAfter(es[..k], x), x, es[k], KnownAfter(es[..k], es[k].step)); }
    }
  }

  // ----- held and paused -----

  /** A breakpoint was cleared after everything else that decides the hold. */
  ghost predicate LetGo(es: seq<Event>, x: string) {
    exists i :: 0 <= i < |es| && ClearsBreakpoint(es[i], x) && forall j :: i < j < |es| ==> !About(Holding, es[j], x)
  }

  lemma LetGoLast(es: seq<Event>, x: string)
    requires es != []
    ensures var k := |es| - 1;
            LetGo(es, x) <==> !About(Holding, es[k], x) && (LetGo(es[..k], x) || ClearsBreakpoint(es[k], x))
  {
    var k := |es| - 1;
    var front := es[..k];
    if LetGo(es, x) {
      var i :| 0 <= i < |es| && ClearsBreakpoint(es[i], x) && forall j :: i < j < |es| ==> !About(Holding, es[j], x);
      if i < k { assert front[i] == es[i]; }
    }
    if !About(Holding, es[k], x) && LetGo(front, x) {
      var i :| 0 <= i < k && ClearsBreakpoint(front[i], x) && forall j :: i < j < k ==> !About(Holding, front[j], x);
      assert es[i] == front[i];
      forall j | i < j < |es| ensures !About(Holding, es[j], x) { assert j < k ==> es[j] == front[j]; }
    }
  }

  lemma ScopedHold(r: Option<StepState>, x: string, e: Event, known: bool)
    requires x != "" && StepScoped(e.payload)
    ensures var st, st' := Shown(r, x), Shown(Effect(r, x, e, known), x);
            if !About(Holding, e, x) then st'.held == st.held && st'.paused == st.paused
            else if e.payload.BreakpointHit? then st'.held == e.payload.reason && st'.paused
            else st'.held == "" && !st'.paused
  {
    ScopedEffect(r, x, e, known);
  }

  lemma OtherHold(r: Option<StepState>, x: string, e: Event, known: bool)
    requires x != "" && !StepScoped(e.payload)
    ensures var st, st' := Shown(r, x), Shown(Effect(r, x, e, known), x);
            if Clears(e, x) && !(ClearsBreakpoint(e, x) && st.held != "") then !st'.paused && st'.held == ""
            else st'.paused == st.paused && st'.held == st.held
  {
  }

  /**
   A step is held for the reason of its last breakpoint.hit, unless it started, finished or was retried or released
   since; and then it is paused, unless the hit had no reason and its breakpoint was cleared since.
   */
  lemma {:induction false} HoldLaw(es: seq<Event>, x: string)
    requires x != "" && Ordered(EMPTY_STATE, es)
    ensures var st, h := Shown(RecordAfter(es, x), x), Last(es, Holding, x);
            if h.Some? && h.value.payload.BreakpointHit? then
              && st.held == h.value.payload.reason
              && (st.paused <==> h.value.payload.reason != "" || !LetGo(es, x))
            else st.held == "" && !st.paused
  {
    if es != [] {
      var k := |es| - 1;
      OrderedFront(es);
      HoldLaw(es[..k], x);
      LetGoLast(es, x);
      RecordLast(es, x);
      var r, known := RecordAfter(es[..k], x), KnownAfter(es[..k], es[k].step);
      if StepScoped(es[k].payload) {
        ScopedHold(r, x, es[k], known);
      } else if !es[k].payload.Undecodable? {
        OtherHold(r, x, es[k], known);
      }
    }
  }

  // ----- log marks -----

  /** The i-th event reports bytes of a stream of x, and x was not retried since. */
  predicate Logs(es: seq<Event>, i: nat, x: string, stream: string) {
    && i < |es| && es[i].step == x && es[i].payload.StepLogAppended? && es[i].payload.stream == stream
    && forall j :: i < j < |es| ==> !About(Retrying, es[j], x)
  }

  function LogEnd(e: Event): int
    requires e.payload.StepLogAppended?
  {
    e.payload.offset + e.payload.len
  }

  lemma LogEffect(r: Option<StepState>, x: string, e: Event, known: bool, stream: string)
    requires x != "" && !e.payload.Undecodable?
    ensures var m, m' := LoggedBytes(Shown(r, x), stream), LoggedBytes(Shown(Effect(r, x, e, known), x), stream);
            if About(Retrying, e, x) then m' == 0
            else if e.step == x && e.payload.StepLogAppended? && e.payload.stream == stream then
              m' == if m < LogEnd(e) then LogEnd(e) else m
            else m' == m
  {
    if StepScoped(e.payload) { ScopedEffect(r, x, e, known); } else { OtherEffect(r, x, e, known); }
  }

  /** m is the furthest end reported, or nothing. */
  ghost predicate IsMark(es: seq<Event>, x: string, stream: string, m: int) {
    && m >= 0 && (forall i: nat :: Logs(es, i, x, stream) ==> LogEnd(es[i]) <= m)
    && (m == 0 || exists i: nat :: Logs(es, i, x, stream) && LogEnd(es[i]) == m)
  }

  lemma LogsLast(es: seq<Event>, i: nat, x: string, stream: string)
    requires es != [] && i < |es| - 1
    ensures Logs(es, i, x, stream) <==> Logs(es[..|es| - 1], i, x, stream) && !About(Retrying, es[|es| - 1], x)
  {
    var front := es[..|es| - 1];
    assert forall j :: 0 <= j < |front| ==> front[j] == es[j];
  }

  lemma MarkLast(es: seq<Event>, x: string, stream: string, m: int, m': int)
    requires es != [] && IsMark(es[..|es| - 1], x, stream, m)
    requires var e := es[|es| - 1];
             if About(Retrying, e, x) then m' == 0
             else if e.step == x && e.payload.StepLogAppended? && e.payload.stream == stream then
               m' == if m < LogEnd(e) then LogEnd(e) else m
             else m' == m
    ensures IsMark(es, x, stream, m')
  {
    var k := |es| - 1;
    var front := es[..k];
    forall i: nat | Logs(es, i, x, stream) ensures LogEnd(es[i]) <= m' {
      if i < k { LogsLast(es, i, x, stream); }
    }
    if m' != 0 && m' == m {
      var i: nat :| Logs(front, i, x, stream) && LogEnd(front[i]) == m;
      LogsLast(es, i, x, stream);
    } else if m' != 0 {
      assert Logs(es, k, x, stream);
    }
  }

  /** A stream's mark is the furthest end reported since the last retry. */
  lemma {:induction false} LogLaw(es: seq<Event>, x: string, stream: string)
    requires x != "" && Ordered(EMPTY_STATE, es)
    ensures IsMark(es, x, stream, LoggedBytes(Shown(RecordAfter(es, x), x), stream))
  {
    if es != [] {
      var k := |es| - 1;
      OrderedFront(es);
      LogLaw(es[..k], x, stream);
      RecordLast(es, x);
      var r, known := RecordAfter(es[..k], x), KnownAfter(es[..k], es[k].step);
      if !es[k].payload.Undecodable? { LogEffect(r, x, es[k], known, stream); }
      MarkLast(es, x, stream, LoggedBytes(Shown(r, x), stream), LoggedBytes(Shown(RecordAfter(es, x), x), stream));
    }
  }

  // ----- which steps there are -----

  /** The i-th event brings x into being: one of its own, an expansion, or the first event of a handler under x. */
  predicate Records(es: seq<Event>, i: nat, x: string) {
    i < |es| &&
    var e := es[i];
    || (e.step == x && StepScoped(e.payload))
    || Expands(e, x)
    || (Attaches(e, e.step, x) && e.step != "" && FirstParent(es[..i], e.step).None?)
  }

  ghost predicate Recorded(es: seq<Event>, x: string) {
    exists i: nat :: Records(es, i, x)
  }

  lemma RecordsEarlier(es: seq<Event>, i: nat, x: string)
    requires es != [] && i < |es| - 1
    ensures Records(es, i, x) <==> Records(es[..|es| - 1], i, x)
  {
    assert es[..|es| - 1][..i] == es[..i];
  }

  lemma RecordedLast(es: seq<Event>, x: string)
    requires es != []
    ensures Recorded(es, x) <==> Recorded(es[..|es| - 1], x) || Records(es, |es| - 1, x)
  {
    var k := |es| - 1;
    if Recorded(es, x) {
      var i: nat :| Records(es, i, x);
      if i < k { RecordsEarlier(es, i, x); }
    }
    if Recorded(es[..k], x) {
      var i: nat :| Records(es[..k], i, x);
      RecordsEarlier(es, i, x);
    }
  }

  lemma PresenceEffect(r: Option<StepState>, x: string, e: Event, known: bool)
    requires x != "" && !e.payload.Undecodable?
    ensures Effect(r, x, e, known).Some? <==>
            || r.Some? || (e.step == x && StepScoped(e.payload)) || Expands(e, x)
            || (Attaches(e, e.step, x) && e.step != "" && !known)
  {
    if StepScoped(e.payload) { ScopedEffect(r, x, e, known); }
  }

  /** A step has a record exactly when some event brought it into being. */
  lemma {:induction false} PresenceLaw(es: seq<Event>, x: string)
    requires x != "" && Ordered(EMPTY_STATE, es)
    ensures x in Run(EMPTY_STATE, es).steps <==> Recorded(es, x)
  {
    if es != [] {
      var k := |es| - 1;
      OrderedFront(es);
      PresenceLaw(es[..k], x);
      RecordedLast(es, x);
      RecordLast(es, x);
      RunHandlers(EMPTY_STATE, es[..k], es[k].step);
      if !es[k].payload.Undecodable? { PresenceEffect(RecordAfter(es[..k], x), x, es[k], KnownAfter(es[..k], es[k].step)); }
    }
  }

  // ----- attempt -----

  /** The i-th event tells the attempt of x, which is recorded by then and was not retried since. */
  ghost predicate TellsAttempt(es: seq<Event>, i: nat, x: string) {
    && i < |es| && es[i].step == x && !es[i].payload.Undecodable? && (es[i].attempt > 0 || es[i].payload.StepStarted?)
    && Recorded(es[..i + 1], x)
    && forall j :: i < j < |es| ==> !About(Retrying, es[j], x)
  }

  function RetriedTo(es: seq<Event>, x: string): int {
    var r := Last(es, Retrying, x);
    if r.Some? && r.value.payload.StepRetried? then r.value.payload.attempt else 0
  }

  /** n is the highest attempt told since the last retry, counting the one it was retried to. */
  ghost predicate IsAttempt(es: seq<Event>, x: string, n: int) {
    && n >= RetriedTo(es, x) && (forall i: nat :: TellsAttempt(es, i, x) ==> es[i].attempt <= n)
    && (n == RetriedTo(es, x) || exists i: nat :: TellsAttempt(es, i, x) && es[i].attempt == n)
  }

  lemma AttemptEffect(r: Option<StepState>, x: string, e: Event, known: bool)
    requires x != "" && !e.payload.Undecodable?
    ensures var r' := Effect(r, x, e, known);
            var n := if About(Retrying, e, x) then e.payload.attempt else Shown(r, x).attempt;
            Shown(r', x).attempt ==
            if e.step == x && r'.Some? && (e.attempt > 0 || e.payload.StepStarted?) && e.attempt > n then e.attempt else n
  {
    if StepScoped(e.payload) { ScopedEffect(r, x, e, known); }
  }

  lemma TellsEarlier(es: seq<Event>, i: nat, x: string)
    requires es != [] && i < |es| - 1
    ensures TellsAttempt(es, i, x) <==> TellsAttempt(es[..|es| - 1], i, x) && !About(Retrying, es[|es| - 1], x)
  {
    var front := es[..|es| - 1];
    assert front[..i + 1] == es[..i + 1];
    assert forall j :: 0 <= j < |front| ==> front[j] == es[j];
  }

  lemma AttemptLast(es: seq<Event>, x: string, n: int, n': int)
    requires es != [] && IsAttempt(es[..|es| - 1], x, n)
    requires var e := es[|es| - 1];
             var m := if About(Retrying, e, x) then RetriedTo(es, x) else n;
             n' == if TellsAttempt(es, |es| - 1, x) && e.attempt > m then e.attempt else m
    ensures IsAttempt(es, x, n')
  {
    var k := |es| - 1;
    forall i: nat | TellsAttempt(es, i, x) ensures es[i].attempt <= n' {
      if i < k { TellsEarlier(es, i, x); }
    }
    if n' == n && n' != RetriedTo(es, x) && !About(Retrying, es[k], x) {
      var i: nat :| TellsAttempt(es[..k], i, x) && es[..k][i].attempt == n;
      TellsEarlier(es, i, x);
    }
  }

  lemma TellsNow(es: seq<Event>, x: string)
    requires es != [] && x != "" && Ordered(EMPTY_STATE, es)
    ensures var e := es[|es| - 1];
            TellsAttempt(es, |es| - 1, x) <==>
            e.step == x && !e.payload.Undecodable? && (e.attempt > 0 || e.payload.StepStarted?) && RecordAfter(es, x).Some?
  {
    PresenceLaw(es, x);
    assert es[..|es|] == es;
  }

  lemma AttemptNow(es: seq<Event>, x: string, n: int)
    requires es != [] && x != "" && Ordered(EMPTY_STATE, es) && n == Shown(RecordAfter(es[..|es| - 1], x), x).attempt
    ensures var e := es[|es| - 1];
            var m := if About(Retrying, e, x) then RetriedTo(es, x) else n;
            Shown(RecordAfter(es, x), x).attempt == if TellsAttempt(es, |es| - 1, x) && e.attempt > m then e.attempt else m
  {
    var k := |es| - 1;
    OrderedFront(es);
    RecordLast(es, x);
    TellsNow(es, x);
    if !es[k].payload.Undecodable? { AttemptEffect(RecordAfter(es[..k], x), x, es[k], KnownAfter(es[..k], es[k].step)); }
  }

  /** A step's attempt is the highest told since its last retry, or the one it was retried to. */
  lemma {:induction false} AttemptLaw(es: seq<Event>, x: string)
    requires x != "" && Ordered(EMPTY_STATE, es)
    ensures IsAttempt(es, x, Shown(RecordAfter(es, x), x).attempt)
  {
    if es != [] {
      OrderedFront(es);
      AttemptLaw(es[..|es| - 1], x);
      var n := Shown(RecordAfter(es[..|es| - 1], x), x).attempt;
      AttemptNow(es, x, n);
      AttemptLast(es, x, n, Shown(RecordAfter(es, x), x).attempt);
    }
  }
}
