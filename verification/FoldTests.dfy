/** What a folded test verdict means, in terms of everything the attempts reported. */
module FoldTests {
  import opened Wrappers
  import opened Events
  import opened Fold
  import opened FoldReplay
  import opened FoldLocality

  datatype Report = Report(attempt: int, outcome: Outcome)

  predicate Reports(e: Event, x: string, suite: string, name: string) {
    e.payload.TestFinished? && e.step == x && e.payload.suite == suite && e.payload.name == name
  }

  /** Everything a stream reports about one test of one step, in order. */
  function ReportsOf(es: seq<Event>, x: string, suite: string, name: string): seq<Report> {
    if es == [] then []
    else
      var k := |es| - 1;
      ReportsOf(es[..k], x, suite, name) +
      if Reports(es[k], x, suite, name) then [Report(es[k].attempt, es[k].payload.outcome)] else []
  }

  function TestAt(s: State, x: string, suite: string, name: string): Option<TestResult> {
    if x in s.steps then FindTest(s.steps[x].tests, suite, name) else None
  }

  // ----- the verdict automaton -----

  function Absorb(cur: Option<Report>, v: Report): Report {
    if cur.Some? && cur.value.attempt == v.attempt && cur.value.outcome == Failed && v.outcome != Failed then cur.value
    else if cur.Some? && v.outcome == Passed &&
            (cur.value.outcome == Recovered || (cur.value.outcome == Failed && v.attempt > cur.value.attempt))
    then Report(v.attempt, Recovered)
    else v
  }

  function Folded(vs: seq<Report>): Option<Report> {
    if vs == [] then None else Some(Absorb(Folded(vs[..|vs| - 1]), vs[|vs| - 1]))
  }

  // ----- what the verdicts should mean -----

  predicate OnTheWire(vs: seq<Report>) {
    forall i :: 0 <= i < |vs| ==> vs[i].outcome == Passed || vs[i].outcome == Failed || vs[i].outcome == Skipped
  }

  predicate AttemptsOrdered(vs: seq<Report>) {
    forall i, j :: 0 <= i < j < |vs| ==> vs[i].attempt <= vs[j].attempt
  }

  /** The last attempt that reported the test reported it failed, in any position. */
  predicate LastAttemptFailed(vs: seq<Report>) {
    exists i :: 0 <= i < |vs| && vs[i].outcome == Failed && vs[i].attempt == vs[|vs| - 1].attempt
  }

  /** No failure comes from a later attempt than that of the failure at i. */
  predicate LatestFailure(vs: seq<Report>, i: nat) {
    i < |vs| && vs[i].outcome == Failed && forall j :: 0 <= j < |vs| && vs[j].outcome == Failed ==> vs[j].attempt <= vs[i].attempt
  }

  /** Attempts later than the last failing one reported it, and only ever as passed. */
  predicate PassedEverSince(vs: seq<Report>, i: nat)
    requires i < |vs|
  {
    && (exists j :: 0 <= j < |vs| && vs[j].attempt > vs[i].attempt)
    && (forall j :: 0 <= j < |vs| && vs[j].attempt > vs[i].attempt ==> vs[j].outcome == Passed)
  }

  predicate CameBack(vs: seq<Report>) {
    exists i: nat :: i < |vs| && LatestFailure(vs, i) && PassedEverSince(vs, i)
  }

  predicate Exact(vs: seq<Report>) {
    match Folded(vs)
    case None => vs == []
    case Some(r) =>
      && vs != []
      && r.attempt == vs[|vs| - 1].attempt
      && (r.outcome == Failed <==> LastAttemptFailed(vs))
      && (r.outcome == Recovered <==> CameBack(vs))
  }

  lemma FailedStep(vs: seq<Report>, v: Report)
    requires AttemptsOrdered(vs + [v]) && v.outcome != Failed
    ensures LastAttemptFailed(vs + [v]) <==> vs != [] && v.attempt == vs[|vs| - 1].attempt && LastAttemptFailed(vs)
  {
    var ws := vs + [v];
    if i :| 0 <= i < |ws| && ws[i].outcome == Failed && ws[i].attempt == ws[|ws| - 1].attempt {
      assert vs[i].attempt <= ws[|vs| - 1].attempt <= v.attempt;
    }
    if vs != [] && v.attempt == vs[|vs| - 1].attempt && LastAttemptFailed(vs) {
      var i :| 0 <= i < |vs| && vs[i].outcome == Failed && vs[i].attempt == vs[|vs| - 1].attempt;
      assert ws[i] == vs[i];
    }
  }

  lemma FailureResets(vs: seq<Report>, v: Report)
    requires AttemptsOrdered(vs + [v]) && v.outcome == Failed
    ensures LastAttemptFailed(vs + [v]) && !CameBack(vs + [v])
  {
    var ws := vs + [v];
    assert ws[|vs|] == v;
  }

  lemma CameBackOnlyThen(vs: seq<Report>, v: Report)
    requires AttemptsOrdered(vs + [v]) && v.outcome != Failed && vs != [] && CameBack(vs + [v])
    ensures v.outcome == Passed && (CameBack(vs) || (LastAttemptFailed(vs) && v.attempt > vs[|vs| - 1].attempt))
  {
    var ws, n := vs + [v], |vs|;
    assert forall j :: 0 <= j < n ==> ws[j] == vs[j];
    var i: nat :| i < |ws| && LatestFailure(ws, i) && PassedEverSince(ws, i);
    var j :| 0 <= j < |ws| && ws[j].attempt > ws[i].attempt;
    assert i < n && ws[n].attempt >= ws[j].attempt;
    if k :| 0 <= k < n && vs[k].attempt > vs[i].attempt {
      assert LatestFailure(vs, i) && PassedEverSince(vs, i);
    } else {
      assert ws[i].attempt <= ws[n - 1].attempt;
    }
  }

  lemma ComingBackGoesOn(vs: seq<Report>, v: Report)
    requires AttemptsOrdered(vs + [v]) && v.outcome == Passed && CameBack(vs)
    ensures CameBack(vs + [v])
  {
    var ws, n := vs + [v], |vs|;
    assert forall j :: 0 <= j < n ==> ws[j] == vs[j];
    var i: nat :| i < n && LatestFailure(vs, i) && PassedEverSince(vs, i);
    var j :| 0 <= j < n && vs[j].attempt > vs[i].attempt;
    assert ws[j].attempt > ws[i].attempt && LatestFailure(ws, i) && PassedEverSince(ws, i);
  }

  lemma ComingBackStarts(vs: seq<Report>, v: Report)
    requires AttemptsOrdered(vs + [v]) && v.outcome == Passed && LastAttemptFailed(vs) && v.attempt > vs[|vs| - 1].attempt
    ensures CameBack(vs + [v])
  {
    var ws, n := vs + [v], |vs|;
    assert forall j :: 0 <= j < n ==> ws[j] == vs[j];
    var i :| 0 <= i < n && vs[i].outcome == Failed && vs[i].attempt == vs[n - 1].attempt;
    assert forall j :: 0 <= j < n - 1 ==> ws[j].attempt <= ws[n - 1].attempt;
    assert ws[n].attempt > ws[i].attempt && LatestFailure(ws, i) && PassedEverSince(ws, i);
  }

  /** A pass brings the test back when the run of later passes starts with it or goes on. */
  lemma CameBackStep(vs: seq<Report>, v: Report)
    requires AttemptsOrdered(vs + [v]) && v.outcome != Failed && vs != []
    ensures CameBack(vs + [v]) <==>
            v.outcome == Passed && (CameBack(vs) || (LastAttemptFailed(vs) && v.attempt > vs[|vs| - 1].attempt))
  {
    if CameBack(vs + [v]) { CameBackOnlyThen(vs, v); }
    if v.outcome == Passed {
      if CameBack(vs) {
        ComingBackGoesOn(vs, v);
      } else if LastAttemptFailed(vs) && v.attempt > vs[|vs| - 1].attempt {
        ComingBackStarts(vs, v);
      }
    }
  }

  lemma NotBoth(vs: seq<Report>)
    requires AttemptsOrdered(vs)
    ensures !(LastAttemptFailed(vs) && CameBack(vs))
  {
  }

  lemma FoldedOneMore(vs: seq<Report>, v: Report)
    ensures Folded(vs + [v]) == Some(Absorb(Folded(vs), v))
  {
    assert (vs + [v])[..|vs|] == vs;
  }

  lemma ExactOneMore(vs: seq<Report>, v: Report)
    requires Exact(vs) && AttemptsOrdered(vs + [v]) && AttemptsOrdered(vs)
    requires v.outcome == Passed || v.outcome == Failed || v.outcome == Skipped
    ensures Exact(vs + [v])
  {
    FoldedOneMore(vs, v);
    if v.outcome == Failed {
      FailureResets(vs, v);
    } else {
      FailedStep(vs, v);
      if vs == [] {
        assert !CameBack([v]);
      } else {
        CameBackStep(vs, v);
        NotBoth(vs);
      }
    }
  }

  lemma {:induction false} FoldedExactly(vs: seq<Report>)
    requires OnTheWire(vs) && AttemptsOrdered(vs)
    ensures Exact(vs)
  {
    if vs != [] {
      var n := |vs| - 1;
      FoldedExactly(vs[..n]);
      assert vs == vs[..n] + [vs[n]];
      ExactOneMore(vs[..n], vs[n]);
    }
  }

  // ----- the fold runs that automaton -----

  function View(t: Option<TestResult>): Option<Report> {
    if t.Some? then Some(Report(t.value.attempt, t.value.outcome)) else None
  }

  lemma OtherTestKept(tests: seq<TestResult>, p: Payload, attempt: int, suite: string, name: string)
    requires p.TestFinished? && !(p.suite == suite && p.name == name)
    ensures FindTest(ReportTest(tests, p, attempt), suite, name) == FindTest(tests, suite, name)
  {
    var i := TestIndex(tests, suite, name);
    var r := ReportTest(tests, p, attempt);
    var k := TestIndex(tests, p.suite, p.name);
    if i < |tests| {
      TestIndexUnique(r, suite, name, i);
    } else {
      TestIndexUnique(r, suite, name, |r|);
    }
  }

  lemma ReportAbsorbed(tests: seq<TestResult>, p: Payload, attempt: int)
    requires p.TestFinished?
    ensures View(FindTest(ReportTest(tests, p, attempt), p.suite, p.name)) ==
            Some(Absorb(View(FindTest(tests, p.suite, p.name)), Report(attempt, p.outcome)))
  {
    if !KeepsFailure(FindTest(tests, p.suite, p.name), p.outcome, attempt) { ReportIsFound(tests, p, attempt); }
  }

  lemma OnStepTests(st: StepState, e: Event)
    requires StepScoped(e.payload)
    ensures OnStep(st, e).tests == if e.payload.TestFinished? then ReportTest(st.tests, e.payload, e.attempt) else st.tests
  {
  }

  lemma EffectOnTests(r: Option<StepState>, x: string, e: Event, known: bool)
    requires x != ""
    ensures var before := if r.Some? then r.value.tests else [];
            var r' := Effect(r, x, e, known);
            (if r'.Some? then r'.value.tests else []) ==
            if e.payload.TestFinished? && e.step == x then ReportTest(before, e.payload, e.attempt) else before
  {
    var st := if r.Some? then r.value else FreshStep(x);
    if StepScoped(e.payload) {
      OnStepTests(st, e);
      assert Effect(r, x, e, known) == if e.step == x then Some(SeedStep(OnStep(st, e), e)) else r;
    } else {
      match e.payload
      case PlanExpanded(_, _, _, _) =>
      case PlanGenerated(_, _, _) =>
      case ControlApplied(_, _) =>
      case Handler(_, _, _, _, _) =>
      case _ =>
    }
  }

  lemma TestsStep(s: State, e: Event, x: string, suite: string, name: string)
    requires x != "" && Accepts(s, e)
    ensures var before := View(TestAt(s, x, suite, name));
            View(TestAt(Next(s, e), x, suite, name)) ==
            if Reports(e, x, suite, name) then Some(Absorb(before, Report(e.attempt, e.payload.outcome))) else before
  {
    NextRecord(s, e, x);
    EffectOnTests(Record(s, x), x, e, e.step in s.handlers);
    var tests := if x in s.steps then s.steps[x].tests else [];
    assert TestAt(s, x, suite, name) == FindTest(tests, suite, name);
    var s' := Next(s, e);
    var tests' := if x in s'.steps then s'.steps[x].tests else [];
    assert TestAt(s', x, suite, name) == FindTest(tests', suite, name);
    if e.payload.TestFinished? && e.step == x {
      if Reports(e, x, suite, name) {
        ReportAbsorbed(tests, e.payload, e.attempt);
      } else {
        OtherTestKept(tests, e.payload, e.attempt, suite, name);
      }
    }
  }

  lemma {:induction false} RunFoldsReports(es: seq<Event>, x: string, suite: string, name: string)
    requires x != "" && Ordered(EMPTY_STATE, es)
    ensures View(TestAt(Run(EMPTY_STATE, es), x, suite, name)) == Folded(ReportsOf(es, x, suite, name))
  {
    if es != [] {
      var k := |es| - 1;
      var e := es[k];
      RunFoldsReports(es[..k], x, suite, name);
      RunSeqBound(EMPTY_STATE, es[..k], e.seqNo);
      TestsStep(Run(EMPTY_STATE, es[..k]), e, x, suite, name);
      ReportsOneMore(es, x, suite, name);
    }
  }

  lemma ReportsOneMore(es: seq<Event>, x: string, suite: string, name: string)
    requires es != []
    ensures var e := es[|es| - 1];
            var vs := ReportsOf(es[..|es| - 1], x, suite, name);
            Folded(ReportsOf(es, x, suite, name)) ==
            if Reports(e, x, suite, name) then Some(Absorb(Folded(vs), Report(e.attempt, e.payload.outcome))) else Folded(vs)
  {
    var e := es[|es| - 1];
    var vs := ReportsOf(es[..|es| - 1], x, suite, name);
    if Reports(e, x, suite, name) {
      FoldedOneMore(vs, Report(e.attempt, e.payload.outcome));
    } else {
      assert vs + [] == vs;
    }
  }

  /**
   Over a whole run: a test ends as failed exactly when the last attempt reporting it failed it, and as
   recovered exactly when some attempt failed it and every later report is a pass, of which there is one.
   */
  lemma TestVerdictExact(es: seq<Event>, x: string, suite: string, name: string)
    requires x != "" && Ordered(EMPTY_STATE, es)
    requires var vs := ReportsOf(es, x, suite, name); OnTheWire(vs) && AttemptsOrdered(vs)
    ensures var vs := ReportsOf(es, x, suite, name);
            var t := TestAt(Run(EMPTY_STATE, es), x, suite, name);
            && (t.Some? <==> vs != [])
            && (t.Some? && t.value.outcome == Failed <==> LastAttemptFailed(vs))
            && (t.Some? && t.value.outcome == Recovered <==> CameBack(vs))
  {
    RunFoldsReports(es, x, suite, name);
    FoldedExactly(ReportsOf(es, x, suite, name));
  }

  // ----- recovered, as documented -----

  /** Failed on an attempt, passed on a later one, and not failed since. */
  predicate FailedThenPassed(vs: seq<Report>) {
    exists i: nat, j: nat ::
      i < |vs| && j < |vs| && LatestFailure(vs, i) && vs[j].attempt > vs[i].attempt && vs[j].outcome == Passed
  }

  /** An attempt later than the last failing one skipped the test. */
  predicate SkippedSince(vs: seq<Report>) {
    exists i: nat, k: nat ::
      i < |vs| && k < |vs| && LatestFailure(vs, i) && vs[k].attempt > vs[i].attempt && vs[k].outcome == Skipped
  }

  lemma CameBackIs(vs: seq<Report>)
    requires OnTheWire(vs)
    ensures CameBack(vs) <==> FailedThenPassed(vs) && !SkippedSince(vs)
  {
    if CameBack(vs) {
      var i: nat :| i < |vs| && LatestFailure(vs, i) && PassedEverSince(vs, i);
      var j :| 0 <= j < |vs| && vs[j].attempt > vs[i].attempt;
      assert vs[j].outcome == Passed;
    }
    if FailedThenPassed(vs) && !SkippedSince(vs) {
      var i: nat, j: nat :|
        i < |vs| && j < |vs| && LatestFailure(vs, i) && vs[j].attempt > vs[i].attempt && vs[j].outcome == Passed;
      assert PassedEverSince(vs, i);
    }
  }

  /**
   A test that failed and passed on a later attempt is folded to recovered exactly when no attempt since the
   failure skipped it; and nothing else is.
   */
  lemma RecoveredExactlyWhen(es: seq<Event>, x: string, suite: string, name: string)
    requires x != "" && Ordered(EMPTY_STATE, es)
    requires var vs := ReportsOf(es, x, suite, name); OnTheWire(vs) && AttemptsOrdered(vs)
    ensures var vs := ReportsOf(es, x, suite, name);
            var t := TestAt(Run(EMPTY_STATE, es), x, suite, name);
            var recovered := t.Some? && t.value.outcome == Recovered;
            && (recovered <==> FailedThenPassed(vs) && !SkippedSince(vs))
            && ((recovered <==> FailedThenPassed(vs)) <==> !(FailedThenPassed(vs) && SkippedSince(vs)))
  {
    TestVerdictExact(es, x, suite, name);
    CameBackIs(ReportsOf(es, x, suite, name));
  }

  /** Failed, skipped, passed on three attempts is folded to passed. */
  lemma SkipHidesRecovery()
    ensures var vs := [Report(1, Failed), Report(2, Skipped), Report(3, Passed)];
            FailedThenPassed(vs) && Folded(vs) == Some(Report(3, Passed))
  {
    var vs := [Report(1, Failed), Report(2, Skipped), Report(3, Passed)];
    assert LatestFailure(vs, 0) && vs[2].attempt > vs[0].attempt;
    assert vs == [] + [vs[0]] + [vs[1]] + [vs[2]];
    FoldedOneMore([], vs[0]);
    FoldedOneMore([] + [vs[0]], vs[1]);
    FoldedOneMore([] + [vs[0]] + [vs[1]], vs[2]);
  }
}
