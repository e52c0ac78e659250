/** The annotations a finished check run carries: failed tests and failed steps, within GitHub's budget. */
module CheckAnnotations {
  import opened Events
  import opened Fold
  import opened FoldWellFormed

  const MAX_ANNOTATIONS: nat := 50

  datatype Annotation = OfTest(result: TestResult) | OfStep(title: string, message: string)

  /** One recorded step failure. */
  datatype StepFailure = StepFailure(step: string, ann: Annotation)

  // ----- the full list, before the budget -----

  function FailedTests(tests: seq<TestResult>): seq<TestResult> {
    if tests == [] then []
    else
      var k := |tests| - 1;
      FailedTests(tests[..k]) + if tests[k].outcome == Failed then [tests[k]] else []
  }

  function TestsOf(s: State, id: string): seq<TestResult> {
    if id in s.steps then s.steps[id].tests else []
  }

  function TestAnnotations(ts: seq<TestResult>): seq<Annotation> {
    seq(|ts|, i requires 0 <= i < |ts| => OfTest(ts[i]))
  }

  /** The recorded failures of the steps in `ids`, or of those not in it. */
  function FailuresIn(fs: seq<StepFailure>, ids: set<string>): seq<Annotation> {
    if fs == [] then []
    else
      var k := |fs| - 1;
      FailuresIn(fs[..k], ids) + if fs[k].step in ids then [fs[k].ann] else []
  }

  function FailuresOutside(fs: seq<StepFailure>, ids: set<string>): seq<Annotation> {
    if fs == [] then []
    else
      var k := |fs| - 1;
      FailuresOutside(fs[..k], ids) + if fs[k].step in ids then [] else [fs[k].ann]
  }

  function Members(ids: seq<string>): set<string> {
    set id | id in ids
  }

  /** The annotations placed while walking the steps in the fold's order. */
  function Walked(s: State, fs: seq<StepFailure>, order: seq<string>): seq<Annotation> {
    if order == [] then []
    else
      var k := |order| - 1;
      Walked(s, fs, order[..k]) + (TestAnnotations(FailedTests(TestsOf(s, order[k]))) + FailuresIn(fs, {order[k]}))
  }

  function Full(s: State, fs: seq<StepFailure>): seq<Annotation> {
    Walked(s, fs, s.order) + FailuresOutside(fs, Members(s.order))
  }

  // ----- the loops -----

  predicate WithinBudget(full: seq<Annotation>, out: seq<Annotation>, dropped: nat) {
    && |out| <= MAX_ANNOTATIONS && out <= full && dropped == |full| - |out|
    && (dropped > 0 ==> |out| == MAX_ANNOTATIONS)
  }

  class GitHubChecks {
    const state: State
    const failures: seq<StepFailure>
    var dropped: nat
    var out: seq<Annotation>

    constructor (state: State, failures: seq<StepFailure>)
      ensures this.state == state && this.failures == failures
    {
      this.state, this.failures := state, failures;
      dropped, out := 0, [];
    }

    /** Spends one unit of the budget, or counts the annotation as dropped. */
    method Add(a: Annotation, ghost full: seq<Annotation>)
      requires WithinBudget(full, out, dropped)
      modifies this
      ensures WithinBudget(full + [a], out, dropped)
    {
      if |out| >= MAX_ANNOTATIONS {
        dropped := dropped + 1;
        return;
      }
      out := out + [a];
    }

    method AddTests(tests: seq<TestResult>, ghost full: seq<Annotation>) returns (failed: nat)
      requires WithinBudget(full, out, dropped)
      modifies this
      ensures failed == |FailedTests(tests)|
      ensures WithinBudget(full + TestAnnotations(FailedTests(tests)), out, dropped)
    {
      failed := 0;
      assert full + TestAnnotations(FailedTests(tests[..0])) == full;
      for k := 0 to |tests|
        invariant failed == |FailedTests(tests[..k])|
        invariant WithinBudget(full + TestAnnotations(FailedTests(tests[..k])), out, dropped)
      {
        assert tests[..k + 1][..k] == tests[..k];
        if tests[k].outcome == Failed {
          failed := failed + 1;
          Add(OfTest(tests[k]), full + TestAnnotations(FailedTests(tests[..k])));
          assert full + TestAnnotations(FailedTests(tests[..k])) + [OfTest(tests[k])] ==
                 full + TestAnnotations(FailedTests(tests[..k + 1]));
        }
      }
      assert tests[..|tests|] == tests;
    }

    /** Adds the recorded failures of one step, marking them placed. */
    method AddFailures(id: string, placed: array<bool>, ghost full: seq<Annotation>, ghost before: set<string>)
      requires WithinBudget(full, out, dropped) && placed.Length == |failures|
      requires forall i :: 0 <= i < |failures| ==> (placed[i] <==> failures[i].step in before)
      modifies this, placed
      ensures forall i :: 0 <= i < |failures| ==> (placed[i] <==> failures[i].step in before + {id})
      ensures WithinBudget(full + FailuresIn(failures, {id}), out, dropped)
    {
      assert full + FailuresIn(failures[..0], {id}) == full;
      for k := 0 to |failures|
        invariant forall i :: 0 <= i < k ==> (placed[i] <==> failures[i].step in before + {id})
        invariant forall i :: k <= i < |failures| ==> (placed[i] <==> failures[i].step in before)
        invariant WithinBudget(full + FailuresIn(failures[..k], {id}), out, dropped)
      {
        assert failures[..k + 1][..k] == failures[..k];
        if failures[k].step == id {
          placed[k] := true;
          Add(failures[k].ann, full + FailuresIn(failures[..k], {id}));
          assert full + FailuresIn(failures[..k], {id}) + [failures[k].ann] == full + FailuresIn(failures[..k + 1], {id});
        }
      }
      assert failures[..|failures|] == failures;
    }

    /** Adds what the walk never placed. */
    method AddRest(placed: array<bool>, ghost full: seq<Annotation>, ghost walked: set<string>)
      requires WithinBudget(full, out, dropped) && placed.Length == |failures|
      requires forall i :: 0 <= i < |failures| ==> (placed[i] <==> failures[i].step in walked)
      modifies this
      ensures WithinBudget(full + FailuresOutside(failures, walked), out, dropped)
    {
      assert full + FailuresOutside(failures[..0], walked) == full;
      for k := 0 to |failures|
        invariant WithinBudget(full + FailuresOutside(failures[..k], walked), out, dropped)
      {
        assert failures[..k + 1][..k] == failures[..k];
        if !placed[k] {
          Add(failures[k].ann, full + FailuresOutside(failures[..k], walked));
          assert full + FailuresOutside(failures[..k], walked) + [failures[k].ann] ==
                 full + FailuresOutside(failures[..k + 1], walked);
        }
      }
      assert failures[..|failures|] == failures;
    }

    /** One step of the walk: its failed tests ahead of its own failures. */
    method PlaceStep(id: string, placed: array<bool>, ghost full: seq<Annotation>, ghost before: set<string>) returns (failed: nat)
      requires WithinBudget(full, out, dropped) && placed.Length == |failures|
      requires forall i :: 0 <= i < |failures| ==> (placed[i] <==> failures[i].step in before)
      modifies this, placed
      ensures forall i :: 0 <= i < |failures| ==> (placed[i] <==> failures[i].step in before + {id})
      ensures WithinBudget(full + (TestAnnotations(FailedTests(TestsOf(state, id))) + FailuresIn(failures, {id})), out, dropped)
      ensures failed == |FailedTests(TestsOf(state, id))|
    {
      ghost var mine := TestAnnotations(FailedTests(TestsOf(state, id)));
      failed := AddTests(TestsOf(state, id), full);
      AddFailures(id, placed, full + mine, before);
      assert full + mine + FailuresIn(failures, {id}) == full + (mine + FailuresIn(failures, {id}));
    }

    method Annotations() returns (failedTests: nat)
      modifies this
      ensures WithinBudget(Full(state, failures), out, dropped)
      ensures failedTests == TestCount(state, state.order)
    {
      out, dropped, failedTests := [], 0, 0;
      var placed := new bool[|failures|](_ => false);
      var order := state.order;
      for k := 0 to |order|
        invariant fresh(placed)
        invariant forall i :: 0 <= i < |failures| ==> (placed[i] <==> failures[i].step in Members(order[..k]))
        invariant WithinBudget(Walked(state, failures, order[..k]), out, dropped)
        invariant failedTests == TestCount(state, order[..k])
      {
        WalkOneMore(order, k);
        var n := PlaceStep(order[k], placed, Walked(state, failures, order[..k]), Members(order[..k]));
        failedTests := failedTests + n;
      }
      assert order[..|order|] == order;
      AddRest(placed, Walked(state, failures, order), Members(order));
    }
  }

  lemma WalkOneMore(order: seq<string>, k: nat)
    requires k < |order|
    ensures order[..k + 1][..k] == order[..k] && order[..k + 1][k] == order[k]
    ensures Members(order[..k + 1]) == Members(order[..k]) + {order[k]}
  {
  }

  function TestCount(s: State, order: seq<string>): nat {
    if order == [] then 0
    else TestCount(s, order[..|order| - 1]) + |FailedTests(TestsOf(s, order[|order| - 1]))|
  }

  // ----- conservation -----

  function AnnotationsOf(fs: seq<StepFailure>): seq<Annotation> {
    seq(|fs|, i requires 0 <= i < |fs| => fs[i].ann)
  }

  function AllTestAnnotations(s: State, order: seq<string>): seq<Annotation> {
    if order == [] then []
    else
      var k := |order| - 1;
      AllTestAnnotations(s, order[..k]) + TestAnnotations(FailedTests(TestsOf(s, order[k])))
  }

  lemma {:induction false} NothingWalked(fs: seq<StepFailure>)
    ensures FailuresOutside(fs, {}) == AnnotationsOf(fs)
  {
    if fs != [] { NothingWalked(fs[..|fs| - 1]); }
  }

  /** Walking one more step moves its failures, and only its own, from outside to placed. */
  lemma {:induction false} WalkMoves(fs: seq<StepFailure>, ids: set<string>, id: string)
    requires id !in ids
    ensures multiset(FailuresIn(fs, {id})) + multiset(FailuresOutside(fs, ids + {id})) == multiset(FailuresOutside(fs, ids))
  {
    if fs != [] { WalkMoves(fs[..|fs| - 1], ids, id); }
  }

  lemma Rebalance<T>(walked: multiset<T>, outside: multiset<T>, tests: multiset<T>, all: multiset<T>,
                     mine: multiset<T>, own: multiset<T>, outside': multiset<T>)
    requires walked + outside == tests + all && own + outside' == outside
    ensures walked + mine + own + outside' == tests + mine + all
  {
    calc {
      walked + mine + own + outside';
      walked + mine + (own + outside');
      walked + outside + mine;
      tests + all + mine;
      tests + mine + all;
    }
  }

  lemma WalkOneMoreCounted(s: State, fs: seq<StepFailure>, order: seq<string>)
    requires order != []
    ensures var k := |order| - 1;
            var mine := multiset(TestAnnotations(FailedTests(TestsOf(s, order[k]))));
            && multiset(Walked(s, fs, order)) == multiset(Walked(s, fs, order[..k])) + mine + multiset(FailuresIn(fs, {order[k]}))
            && multiset(AllTestAnnotations(s, order)) == multiset(AllTestAnnotations(s, order[..k])) + mine
  {
  }

  lemma {:induction false} WalkConserves(s: State, fs: seq<StepFailure>, order: seq<string>)
    requires NoRepeats(order)
    ensures multiset(Walked(s, fs, order)) + multiset(FailuresOutside(fs, Members(order))) ==
            multiset(AllTestAnnotations(s, order)) + multiset(AnnotationsOf(fs))
  {
    if order == [] {
      NothingWalked(fs);
      assert Members(order) == {};
    } else {
      var k := |order| - 1;
      var front, id := order[..k], order[k];
      WalkConserves(s, fs, front);
      WalkMoves(fs, Members(front), id);
      assert Members(order) == Members(front) + {id};
      WalkOneMoreCounted(s, fs, order);
      Rebalance(multiset(Walked(s, fs, front)), multiset(FailuresOutside(fs, Members(front))),
                multiset(AllTestAnnotations(s, front)), multiset(AnnotationsOf(fs)),
                multiset(TestAnnotations(FailedTests(TestsOf(s, id)))), multiset(FailuresIn(fs, {id})),
                multiset(FailuresOutside(fs, Members(order))));
    }
  }

  // ----- the order -----

  /** Walking one more step adds its failed tests, in their order, and then its own failures. */
  lemma StepPlaced(s: State, fs: seq<StepFailure>, order: seq<string>, id: string)
    ensures Walked(s, fs, order + [id]) == Walked(s, fs, order) + (TestAnnotations(FailedTests(TestsOf(s, id))) + FailuresIn(fs, {id}))
    ensures Walked(s, fs, []) == []
  {
    assert (order + [id])[..|order|] == order;
  }

  /** The failed tests of a step are those its fold left failed, in the order it lists them. */
  lemma FailedInOrder(tests: seq<TestResult>, t: TestResult)
    ensures FailedTests(tests + [t]) == FailedTests(tests) + if t.outcome == Failed then [t] else []
    ensures FailedTests([]) == []
  {
    assert (tests + [t])[..|tests|] == tests;
  }

  // ----- failed tests counted by identity -----

  function FailedKeys(tests: seq<TestResult>): set<(string, string)> {
    set t | t in tests && t.outcome == Failed :: (t.suite, t.name)
  }

  ghost function FailedTestKeys(s: State, ids: set<string>): set<(string, string, string)> {
    set id, k | id in ids && k in FailedKeys(TestsOf(s, id)) :: (id, k.0, k.1)
  }

  lemma {:induction false} FailedTestsCounted(tests: seq<TestResult>)
    requires TestsUnique(tests)
    ensures |FailedTests(tests)| == |FailedKeys(tests)|
  {
    if tests != [] {
      var k := |tests| - 1;
      FailedTestsCounted(tests[..k]);
      assert forall t :: t in tests <==> t in tests[..k] || t == tests[k];
      var key := (tests[k].suite, tests[k].name);
      if tests[k].outcome == Failed {
        assert FailedKeys(tests) == FailedKeys(tests[..k]) + {key};
        assert key !in FailedKeys(tests[..k]);
      } else {
        assert FailedKeys(tests) == FailedKeys(tests[..k]);
      }
    }
  }

  ghost function Tagged(id: string, ks: set<(string, string)>): set<(string, string, string)> {
    set k | k in ks :: (id, k.0, k.1)
  }

  lemma {:induction false} TaggedSize(id: string, ks: set<(string, string)>)
    ensures |Tagged(id, ks)| == |ks|
  {
    if ks != {} {
      var k :| k in ks;
      TaggedSize(id, ks - {k});
      assert Tagged(id, ks) == Tagged(id, ks - {k}) + {(id, k.0, k.1)};
    }
  }

  lemma KeysSplit(s: State, ids: set<string>, id: string)
    ensures FailedTestKeys(s, ids + {id}) == FailedTestKeys(s, ids) + Tagged(id, FailedKeys(TestsOf(s, id)))
  {
  }

  /** One more step adds its own failed tests, under keys no other step has. */
  lemma KeysOneMore(s: State, ids: set<string>, id: string)
    requires id !in ids
    ensures |FailedTestKeys(s, ids + {id})| == |FailedTestKeys(s, ids)| + |FailedKeys(TestsOf(s, id))|
  {
    var others, mine := FailedTestKeys(s, ids), Tagged(id, FailedKeys(TestsOf(s, id)));
    KeysSplit(s, ids, id);
    TaggedSize(id, FailedKeys(TestsOf(s, id)));
    assert forall x :: x in others ==> x.0 in ids;
    assert others !! mine;
  }

  lemma {:induction false} TestCountIsKeys(s: State, order: seq<string>)
    requires NoRepeats(order) && forall id :: id in order ==> TestsUnique(TestsOf(s, id))
    ensures TestCount(s, order) == |FailedTestKeys(s, Members(order))|
    ensures |AllTestAnnotations(s, order)| == TestCount(s, order)
  {
    if order == [] {
      assert FailedTestKeys(s, Members(order)) == {};
    } else {
      var k := |order| - 1;
      TestCountIsKeys(s, order[..k]);
      FailedTestsCounted(TestsOf(s, order[k]));
      KeysOneMore(s, Members(order[..k]), order[k]);
      assert Members(order) == Members(order[..k]) + {order[k]};
    }
  }

  /**
   On every state a run can fold to, what is sent plus what is dropped is one annotation per failed test
   and one per recorded step failure, none twice and none missing, and at most 50 are sent.
   */
  lemma AnnotationsConserved(es: seq<Event>, fs: seq<StepFailure>, out: seq<Annotation>, dropped: nat)
    requires WithinBudget(Full(Run(EMPTY_STATE, es), fs), out, dropped)
    ensures var s := Run(EMPTY_STATE, es);
            && |out| <= 50 && (dropped > 0 ==> |out| == 50) && out <= Full(s, fs)
            && |out| + dropped == |FailedTestKeys(s, s.steps.Keys)| + |fs|
            && multiset(Full(s, fs)) == multiset(AllTestAnnotations(s, s.order)) + multiset(AnnotationsOf(fs))
  {
    var s := Run(EMPTY_STATE, es);
    ReachableWellFormed(es);
    WalkConserves(s, fs, s.order);
    TestCountIsKeys(s, s.order);
    assert Members(s.order) == s.steps.Keys;
    assert |multiset(Full(s, fs))| == |Full(s, fs)|;
    assert |multiset(AllTestAnnotations(s, s.order)) + multiset(AnnotationsOf(fs))| ==
           |AllTestAnnotations(s, s.order)| + |AnnotationsOf(fs)|;
  }
}
