/**
 What the lowered graph means. The entry-to-exit edges have the same transitive closure as the full
 barrier, and under the conditions Build checks the lowered graph has no cycle.
 */
module Barriers {
  import opened Graphs
  import opened Pipelines
  import opened Lowering

  /** The edges lowering adds: entry steps of w to exit steps of each workflow w needs. */
  function EntryExitEdges(p: Pipeline): Edges {
    set w, v, a, b | w in p && v in p && v.name in w.needs && a in Entries(w.steps) && b in Exits(v.steps) :: (a, b)
  }

  // ----- the nodes Lowered builds carry exactly those edges -----

  lemma {:induction false} StepsNamedIs(p: Pipeline, v: Workflow)
    requires NamesDistinct(p) && v in p
    ensures StepsNamed(p, v.name) == v.steps
  {
    var k := |p| - 1;
    if p[k].name == v.name {
      SameName(p, p[k], v);
    } else {
      assert v in p[..k];
      StepsNamedIs(p[..k], v);
    }
  }

  lemma {:induction false} StepsNamedDeclared(p: Pipeline, n: Id)
    ensures StepsNamed(p, n) == [] || exists v :: v in p && v.name == n && StepsNamed(p, n) == v.steps
  {
    if p != [] {
      var k := |p| - 1;
      if p[k].name != n { StepsNamedDeclared(p[..k], n); }
    }
  }

  lemma {:induction false} ExitsNeededMembers(p: Pipeline, needs: seq<Id>, b: Id)
    ensures b in ExitsNeeded(p, needs) <==> exists n :: n in needs && b in Exits(StepsNamed(p, n))
  {
    if needs != [] {
      var k := |needs| - 1;
      ExitsNeededMembers(p, needs[..k], b);
      assert needs[k] in needs;
      if n :| n in needs && b in Exits(StepsNamed(p, n)) {
        assert n in needs[..k] || n == needs[k];
      }
    }
  }

  lemma {:induction false} AddedMembers(p: Pipeline, ws: seq<Workflow>, id: Id, b: Id)
    ensures b in Added(p, ws, id) <==> exists w :: w in ws && id in Entries(w.steps) && b in ExitsNeeded(p, w.needs)
  {
    if ws != [] {
      var k := |ws| - 1;
      AddedMembers(p, ws[..k], id, b);
      assert forall w :: w in ws <==> w in ws[..k] || w == ws[k];
    }
  }

  lemma AddedIsEntryExit(p: Pipeline, a: Id, b: Id)
    requires NamesDistinct(p)
    ensures b in Added(p, p, a) <==> (a, b) in EntryExitEdges(p)
  {
    AddedMembers(p, p, a, b);
    if b in Added(p, p, a) {
      var w :| w in p && a in Entries(w.steps) && b in ExitsNeeded(p, w.needs);
      ExitsNeededMembers(p, w.needs, b);
      var n :| n in w.needs && b in Exits(StepsNamed(p, n));
      StepsNamedDeclared(p, n);
      assert Exits([]) == [];
      var v :| v in p && v.name == n && StepsNamed(p, n) == v.steps;
      assert v.name in w.needs && a in Entries(w.steps) && b in Exits(v.steps);
    }
    if (a, b) in EntryExitEdges(p) {
      var w, v :| w in p && v in p && v.name in w.needs && a in Entries(w.steps) && b in Exits(v.steps);
      StepsNamedIs(p, v);
      ExitsNeededMembers(p, w.needs, b);
    }
  }

  lemma EntryIsStep(steps: seq<Step>, a: Id)
    requires a in Entries(steps)
    ensures a in StepIds(steps)
  {
    EntriesOfMembers(StepIds(steps), steps);
    assert NamesEntry(StepIds(steps), steps, a);
  }

  /** The edges of the step called `id` among the lowered nodes. */
  lemma LoweredNodeOf(p: Pipeline, w: Workflow, s: Step, b: Id)
    requires w in p && s in w.steps && (b in s.needs || b in Added(p, p, s.id))
    ensures (s.id, b) in NodeEdges(Lowered(p))
  {
    var nodes := NodesOf(p);
    NodesOfMembers(p);
    assert IsNodeOf(p, Node(s.id, s.needs));
    var i :| 0 <= i < |nodes| && nodes[i] == Node(s.id, s.needs);
    var n := Lowered(p)[i];
    assert n in Lowered(p) && n.id == s.id && b in n.needs;
  }

  lemma LoweredEdgeOrigin(p: Pipeline, a: Id, b: Id)
    requires (a, b) in NodeEdges(Lowered(p))
    ensures (a, b) in StepEdges(p) || b in Added(p, p, a)
  {
    var nodes, low := NodesOf(p), Lowered(p);
    NodesOfMembers(p);
    var n :| n in low && n.id == a && b in n.needs;
    var i :| 0 <= i < |low| && low[i] == n;
    assert nodes[i] in nodes && IsNodeOf(p, nodes[i]);
    var w, s :| w in p && s in w.steps && nodes[i] == Node(s.id, s.needs);
  }

  /** The lowered nodes' edges are the declared edges plus the entry-to-exit edges, and nothing else. */
  lemma LoweredEdges(p: Pipeline)
    requires NamesDistinct(p)
    ensures NodeEdges(Lowered(p)) == StepEdges(p) + EntryExitEdges(p)
  {
    forall e | e in NodeEdges(Lowered(p)) ensures e in StepEdges(p) + EntryExitEdges(p) {
      LoweredEdgeOrigin(p, e.0, e.1);
      AddedIsEntryExit(p, e.0, e.1);
    }
    forall e | e in StepEdges(p) ensures e in NodeEdges(Lowered(p)) {
      var w, s, n :| w in p && s in w.steps && n in s.needs && e == (s.id, n);
      LoweredNodeOf(p, w, s, n);
    }
    forall e | e in EntryExitEdges(p) ensures e in NodeEdges(Lowered(p)) {
      AddedIsEntryExit(p, e.0, e.1);
      var w :| w in p && e.0 in Entries(w.steps);
      EntryIsStep(w.steps, e.0);
      var s :| s in w.steps && s.id == e.0;
      LoweredNodeOf(p, w, s, e.1);
    }
  }

  // ----- the barrier is preserved -----

  lemma InternalIsStepEdges(p: Pipeline, w: Workflow)
    requires w in p
    ensures InternalEdges(w.steps) <= StepEdges(p)
  {
  }

  /** Every step of a workflow is an entry or transitively needs one. */
  lemma ReachesAnEntry(p: Pipeline, w: Workflow, a: Id) returns (z: Id)
    requires StepsDistinct(p) && InternallyAcyclic(p) && w in p && a in StepIds(w.steps)
    ensures z in Entries(w.steps) && (a == z || Reaches(StepEdges(p), a, z))
  {
    z := DescendToSink(InternalEdges(w.steps), StepIds(w.steps), a);
    EntriesAreSinks(w.steps, z);
    InternalIsStepEdges(p, w);
    if a != z { ReachesMonotone(InternalEdges(w.steps), StepEdges(p), a, z); }
  }

  /** Every step of a workflow is an exit or is transitively needed by one. */
  lemma ReachedFromAnExit(p: Pipeline, v: Workflow, b: Id) returns (z: Id)
    requires StepsDistinct(p) && InternallyAcyclic(p) && v in p && b in StepIds(v.steps)
    ensures z in Exits(v.steps) && (z == b || Reaches(StepEdges(p), z, b))
  {
    z := AscendToSource(InternalEdges(v.steps), StepIds(v.steps), b);
    ExitsAreSources(v.steps, z);
    InternalIsStepEdges(p, v);
    if z != b { ReachesMonotone(InternalEdges(v.steps), StepEdges(p), z, b); }
  }

  /** One edge of the full barrier is a walk of the lowered graph. */
  lemma BarrierEdgeWaits(p: Pipeline, w: Workflow, v: Workflow, a: Id, b: Id)
    requires StepsDistinct(p) && InternallyAcyclic(p)
    requires w in p && v in p && v.name in w.needs && a in StepIds(w.steps) && b in StepIds(v.steps)
    ensures Reaches(StepEdges(p) + EntryExitEdges(p), a, b)
  {
    var S, L := StepEdges(p), StepEdges(p) + EntryExitEdges(p);
    var x := ReachesAnEntry(p, w, a);
    var y := ReachedFromAnExit(p, v, b);
    if a != x { ReachesMonotone(S, L, a, x); }
    if y != b { ReachesMonotone(S, L, y, b); }
    assert (x, y) in EntryExitEdges(p);
    EdgeReaches(L, x, y);
    ReachesOrEqual(L, a, x, y);
    ReachesThenEqual(L, a, y, b);
  }

  lemma InFullBarrier(p: Pipeline, w: Workflow, v: Workflow, a: Id, b: Id)
    requires w in p && v in p && v.name in w.needs && a in StepIds(w.steps) && b in StepIds(v.steps)
    ensures (a, b) in FullBarrier(p)
  {
    var s :| s in w.steps && s.id == a;
    var t :| t in v.steps && t.id == b;
  }

  lemma BarrierEdgeOrigin(p: Pipeline, e: (Id, Id)) returns (w: Workflow, v: Workflow)
    requires e in FullBarrier(p)
    ensures w in p && v in p && v.name in w.needs && e.0 in StepIds(w.steps) && e.1 in StepIds(v.steps)
  {
    var s, t;
    w, v, s, t :| w in p && v in p && v.name in w.needs && s in w.steps && t in v.steps && e == (s.id, t.id);
  }

  lemma EntryExitOrigin(p: Pipeline, e: (Id, Id)) returns (w: Workflow, v: Workflow)
    requires e in EntryExitEdges(p)
    ensures w in p && v in p && v.name in w.needs && e.0 in StepIds(w.steps) && e.1 in StepIds(v.steps)
  {
    w, v :| w in p && v in p && v.name in w.needs && e.0 in Entries(w.steps) && e.1 in Exits(v.steps);
    EntryIsStep(w.steps, e.0);
    ExitsAreSources(v.steps, e.1);
  }

  lemma EntryExitInBarrier(p: Pipeline)
    ensures EntryExitEdges(p) <= FullBarrier(p)
  {
    forall e | e in EntryExitEdges(p) ensures e in FullBarrier(p) {
      var w, v := EntryExitOrigin(p, e);
      InFullBarrier(p, w, v, e.0, e.1);
    }
  }

  /** Every edge of the full barrier, and every declared edge, is a walk of the lowered graph. */
  lemma BarrierSimulated(p: Pipeline, e: (Id, Id))
    requires StepsDistinct(p) && InternallyAcyclic(p) && e in StepEdges(p) + FullBarrier(p)
    ensures Reaches(StepEdges(p) + EntryExitEdges(p), e.0, e.1)
  {
    if e in StepEdges(p) {
      EdgeReaches(StepEdges(p) + EntryExitEdges(p), e.0, e.1);
    } else {
      var w, v := BarrierEdgeOrigin(p, e);
      BarrierEdgeWaits(p, w, v, e.0, e.1);
    }
  }

  lemma SameClosure(F: Edges, L: Edges)
    requires L <= F && forall e :: e in F ==> Reaches(L, e.0, e.1)
    ensures forall a, b :: Reaches(L, a, b) <==> Reaches(F, a, b)
  {
    ClosureIncluded(F, L);
    forall a, b | Reaches(L, a, b) ensures Reaches(F, a, b) {
      ReachesMonotone(L, F, a, b);
    }
  }

  /** The lowered plan orders exactly the pairs of steps the full barrier orders. */
  lemma LoweringPreservesBarrier(p: Pipeline)
    requires NamesDistinct(p) && StepsDistinct(p) && InternallyAcyclic(p)
    ensures forall a, b :: Reaches(NodeEdges(Lowered(p)), a, b) <==> Reaches(StepEdges(p) + FullBarrier(p), a, b)
  {
    LoweredEdges(p);
    EntryExitInBarrier(p);
    var F, L := StepEdges(p) + FullBarrier(p), StepEdges(p) + EntryExitEdges(p);
    forall e | e in F ensures Reaches(L, e.0, e.1) {
      BarrierSimulated(p, e);
    }
    SameClosure(F, L);
  }

  // ----- the lowered graph is acyclic -----

  /** A step need across workflows follows the workflow order. */
  ghost predicate CrossNeedsFollowWorkflows(p: Pipeline) {
    forall w, v, s, n :: w in p && v in p && w != v && s in w.steps && n in s.needs && n in StepIds(v.steps) ==>
      Reaches(WorkflowEdges(p), w.name, v.name)
  }

  /** A walk between declared steps either stays inside one workflow or climbs the workflow order. */
  ghost predicate StaysOrClimbs(p: Pipeline, w: Workflow, v: Workflow, a: Id, b: Id) {
    || (w == v && Reaches(InternalEdges(w.steps), a, b))
    || Reaches(WorkflowEdges(p), w.name, v.name)
  }

  lemma EdgeStaysOrClimbs(p: Pipeline, w: Workflow, v: Workflow, a: Id, b: Id)
    requires NamesDistinct(p) && StepsDistinct(p) && CrossNeedsFollowWorkflows(p)
    requires w in p && v in p && a in StepIds(w.steps) && b in StepIds(v.steps)
    requires (a, b) in StepEdges(p) + EntryExitEdges(p)
    ensures StaysOrClimbs(p, w, v, a, b)
  {
    if (a, b) in StepEdges(p) {
      var u, s :| u in p && s in u.steps && s.id == a && b in s.needs;
      SameStep(p, u, w, a);
      if w == v {
        assert (a, b) in InternalEdges(w.steps);
        EdgeReaches(InternalEdges(w.steps), a, b);
      }
    } else {
      var w', v' := EntryExitOrigin(p, (a, b));
      SameStep(p, w', w, a);
      SameStep(p, v', v, b);
      EdgeReaches(WorkflowEdges(p), w.name, v.name);
    }
  }

  lemma EdgeSourceDeclared(p: Pipeline, e: (Id, Id)) returns (w: Workflow)
    requires e in StepEdges(p) + EntryExitEdges(p)
    ensures w in p && e.0 in StepIds(w.steps)
  {
    if e in StepEdges(p) {
      var s;
      w, s :| w in p && s in w.steps && s.id == e.0;
    } else {
      w :| w in p && e.0 in Entries(w.steps);
      EntryIsStep(w.steps, e.0);
    }
  }

  lemma {:induction false} WalkStaysOrClimbs(p: Pipeline, q: seq<Id>, w: Workflow, v: Workflow)
    requires NamesDistinct(p) && StepsDistinct(p) && CrossNeedsFollowWorkflows(p)
    requires |q| >= 2 && IsWalk(StepEdges(p) + EntryExitEdges(p), q)
    requires w in p && v in p && q[0] in StepIds(w.steps) && q[|q| - 1] in StepIds(v.steps)
    ensures StaysOrClimbs(p, w, v, q[0], q[|q| - 1])
    decreases |q|
  {
    var k := |q| - 1;
    WalkFront(StepEdges(p) + EntryExitEdges(p), q, k);
    var u := EdgeSourceDeclared(p, (q[k - 1], q[k]));
    EdgeStaysOrClimbs(p, u, v, q[k - 1], q[k]);
    if k == 1 {
      SameStep(p, u, w, q[0]);
    } else {
      WalkStaysOrClimbs(p, q[..k], w, u);
      if w == u && u == v && !Reaches(WorkflowEdges(p), w.name, v.name) {
        ReachesTrans(InternalEdges(w.steps), q[0], q[k - 1], q[k]);
      } else if Reaches(WorkflowEdges(p), w.name, u.name) && Reaches(WorkflowEdges(p), u.name, v.name) {
        ReachesTrans(WorkflowEdges(p), w.name, u.name, v.name);
      }
    }
  }

  /**
   When the workflow graph and every workflow on its own are acyclic and cross-workflow step needs
   follow the workflow order, the flat step graph the scheduler runs has no cycle.
   */
  lemma LoweredAcyclic(p: Pipeline)
    requires NamesDistinct(p) && StepsDistinct(p)
    requires InternallyAcyclic(p) && Acyclic(WorkflowEdges(p)) && CrossNeedsFollowWorkflows(p)
    ensures Acyclic(NodeEdges(Lowered(p)))
  {
    LoweredEdges(p);
    var L := NodeEdges(Lowered(p));
    forall a ensures !Reaches(L, a, a) {
      if Reaches(L, a, a) {
        var q :| IsWalkBetween(L, q, a, a);
        var w := EdgeSourceDeclared(p, (q[0], q[1]));
        WalkStaysOrClimbs(p, q, w, w);
        assert false;
      }
    }
  }

  // ----- how far the barrier reaches -----

  /** The workflow edges between workflows that have steps. */
  function PopulatedEdges(p: Pipeline): Edges {
    set w, v | w in p && v in p && v.name in w.needs && w.steps != [] && v.steps != [] :: (w.name, v.name)
  }

  /** Workflow w has a step that needs a step of workflow v. */
  function CrossEdges(p: Pipeline): Edges {
    set w, v, s, n | w in p && v in p && w != v && s in w.steps && n in s.needs && n in StepIds(v.steps) :: (w.name, v.name)
  }

  ghost predicate NeedsStayInside(p: Pipeline) {
    forall w, s, n :: w in p && s in w.steps && n in s.needs ==> n in StepIds(w.steps)
  }

  lemma PopulatedEdgeEnds(p: Pipeline, x: Id, y: Id) returns (w: Workflow, v: Workflow)
    requires (x, y) in PopulatedEdges(p)
    ensures w in p && v in p && w.name == x && v.name == y && v.name in w.needs && w.steps != [] && v.steps != []
  {
    w, v :| w in p && v in p && v.name in w.needs && w.steps != [] && v.steps != [] && (w.name, v.name) == (x, y);
  }

  /** Along workflows that have steps, every step waits for every step, however far apart. */
  lemma {:induction false} PopulatedWalkWaits(p: Pipeline, q: seq<Id>, w: Workflow, v: Workflow, a: Id, b: Id)
    requires NamesDistinct(p) && StepsDistinct(p) && InternallyAcyclic(p)
    requires w in p && v in p && IsWalkBetween(PopulatedEdges(p), q, w.name, v.name)
    requires a in StepIds(w.steps) && b in StepIds(v.steps)
    ensures Reaches(StepEdges(p) + EntryExitEdges(p), a, b)
    decreases |q|
  {
    var k := |q| - 1;
    assert (q[k - 1], q[k]) in PopulatedEdges(p);
    var u, v' := PopulatedEdgeEnds(p, q[k - 1], q[k]);
    SameName(p, v', v);
    if k == 1 {
      SameName(p, u, w);
      BarrierEdgeWaits(p, w, v, a, b);
    } else {
      var c := u.steps[0].id;
      assert u.steps[0] in u.steps;
      PopulatedWalkWaits(p, q[..k], w, u, a, c);
      BarrierEdgeWaits(p, u, v, c, b);
      ReachesTrans(StepEdges(p) + EntryExitEdges(p), a, c, b);
    }
  }

  /** Not leaving the workflow at all, or following barriers and step needs between workflows. */
  ghost predicate StaysOrFollows(p: Pipeline, w: Workflow, v: Workflow) {
    w == v || Reaches(PopulatedEdges(p) + CrossEdges(p), w.name, v.name)
  }

  lemma EdgeFollows(p: Pipeline, w: Workflow, v: Workflow, a: Id, b: Id)
    requires StepsDistinct(p)
    requires w in p && v in p && a in StepIds(w.steps) && b in StepIds(v.steps)
    requires (a, b) in StepEdges(p) + EntryExitEdges(p)
    ensures StaysOrFollows(p, w, v)
  {
    if (a, b) in StepEdges(p) {
      var u, s :| u in p && s in u.steps && s.id == a && b in s.needs;
      SameStep(p, u, w, a);
      if w != v {
        assert (w.name, v.name) in CrossEdges(p);
        EdgeReaches(PopulatedEdges(p) + CrossEdges(p), w.name, v.name);
      }
    } else {
      var w', v' := EntryExitOrigin(p, (a, b));
      SameStep(p, w', w, a);
      SameStep(p, v', v, b);
      assert (w.name, v.name) in PopulatedEdges(p);
      EdgeReaches(PopulatedEdges(p) + CrossEdges(p), w.name, v.name);
    }
  }

  lemma FollowsTrans(p: Pipeline, w: Workflow, u: Workflow, v: Workflow)
    requires StaysOrFollows(p, w, u) && StaysOrFollows(p, u, v)
    ensures StaysOrFollows(p, w, v)
  {
    if w != u && u != v { ReachesTrans(PopulatedEdges(p) + CrossEdges(p), w.name, u.name, v.name); }
  }

  lemma LastEdgeFollows(p: Pipeline, a: Id, b: Id, v: Workflow) returns (u: Workflow)
    requires StepsDistinct(p) && v in p && b in StepIds(v.steps)
    requires (a, b) in StepEdges(p) + EntryExitEdges(p)
    ensures u in p && a in StepIds(u.steps) && StaysOrFollows(p, u, v)
  {
    u := EdgeSourceDeclared(p, (a, b));
    EdgeFollows(p, u, v, a, b);
  }

  lemma {:induction false} WalkFollows(p: Pipeline, q: seq<Id>, w: Workflow, v: Workflow)
    requires StepsDistinct(p)
    requires |q| >= 2 && IsWalk(StepEdges(p) + EntryExitEdges(p), q)
    requires w in p && v in p && q[0] in StepIds(w.steps) && q[|q| - 1] in StepIds(v.steps)
    ensures StaysOrFollows(p, w, v)
    decreases |q|
  {
    var k := |q| - 1;
    WalkFront(StepEdges(p) + EntryExitEdges(p), q, k);
    var u := LastEdgeFollows(p, q[k - 1], q[k], v);
    if k == 1 {
      SameStep(p, u, w, q[0]);
    } else {
      WalkFollows(p, q[..k], w, u);
      FollowsTrans(p, w, u, v);
    }
  }

  lemma InsideMeansNoCross(p: Pipeline)
    requires StepsDistinct(p) && NeedsStayInside(p)
    ensures CrossEdges(p) == {}
  {
    forall w, v, s, n | w in p && v in p && s in w.steps && n in s.needs && n in StepIds(v.steps) ensures w == v {
      SameStep(p, w, v, n);
    }
  }

  /**
   How far the barrier carries between two workflows. Along workflows that all have steps, every step waits
   for every step; and what waits at all follows such barriers and step needs across workflows. When steps
   only need steps of their own workflow, the barriers between workflows with steps say it all.
   */
  lemma BarrierReach(p: Pipeline, w: Workflow, v: Workflow, a: Id, b: Id)
    requires NamesDistinct(p) && StepsDistinct(p) && InternallyAcyclic(p)
    requires w in p && v in p && w != v && a in StepIds(w.steps) && b in StepIds(v.steps)
    ensures Reaches(PopulatedEdges(p), w.name, v.name) ==> Reaches(NodeEdges(Lowered(p)), a, b)
    ensures Reaches(NodeEdges(Lowered(p)), a, b) ==> Reaches(PopulatedEdges(p) + CrossEdges(p), w.name, v.name)
    ensures NeedsStayInside(p) ==>
              (Reaches(NodeEdges(Lowered(p)), a, b) <==> Reaches(PopulatedEdges(p), w.name, v.name))
  {
    LoweredEdges(p);
    if Reaches(PopulatedEdges(p), w.name, v.name) {
      var q :| IsWalkBetween(PopulatedEdges(p), q, w.name, v.name);
      PopulatedWalkWaits(p, q, w, v, a, b);
    }
    if Reaches(NodeEdges(Lowered(p)), a, b) {
      var q :| IsWalkBetween(NodeEdges(Lowered(p)), q, a, b);
      WalkFollows(p, q, w, v);
    }
    if NeedsStayInside(p) {
      InsideMeansNoCross(p);
      assert PopulatedEdges(p) + {} == PopulatedEdges(p);
    }
  }

  /** Three workflows in a row, the middle one without steps. */
  function HollowChain(): Pipeline {
    [Workflow("a", [], [Step("x", [])]), Workflow("b", ["a"], []), Workflow("c", ["b"], [Step("z", [])])]
  }

  lemma HollowChainSteps()
    ensures var p := HollowChain();
            |p| == 3 && StepIds(p[0].steps) == {"x"} && StepIds(p[1].steps) == {} && StepIds(p[2].steps) == {"z"}
    ensures forall w :: w in HollowChain() ==> InternalEdges(w.steps) == {}
  {
  }

  /** Build accepts it, and nothing in it is cyclic. */
  lemma HollowChainIsLegal()
    ensures var p := HollowChain();
            NeedsStayInside(p) && InternallyAcyclic(p) && NamesDistinct(p) && StepsDistinct(p)
    ensures Accepted(HollowChain()) && Acyclic(WorkflowEdges(HollowChain()))
  {
    var p := HollowChain();
    HollowChainSteps();
    NothingIsAcyclic();
    HollowChainNames();
    assert forall i, id :: 0 <= i < |p| && id in StepIds(p[i].steps) ==> i == if id == "x" then 0 else 2;
    assert forall w :: w in p ==> w == p[0] || w == p[1] || w == p[2];
  }

  lemma HollowChainNames()
    ensures var p := HollowChain();
            NamesNonEmpty(p) && NamesDistinct(p) && NeedsDeclared(p) && Acyclic(WorkflowEdges(p))
    ensures WorkflowEdges(HollowChain()) == {("b", "a"), ("c", "b")}
  {
    var p := HollowChain();
    assert p[0] in p && p[1] in p && p[2] in p;
    assert forall w :: w in p ==> w == p[0] || w == p[1] || w == p[2];
    assert WorkflowEdges(p) == {("b", "a"), ("c", "b")};
    var order := ["a", "b", "c"];
    assert order[..1] == ["a"] && order[..2] == ["a", "b"];
    assert "a" in order[..1] && "b" in order[..2];
    TopologicalAcyclic(WorkflowEdges(p), order);
  }

  lemma NothingIsAcyclic()
    ensures Acyclic({})
  {
    forall v ensures !Reaches({}, v, v) { EmptyReachesNothing(v, v); }
  }

  /**
   A workflow without steps satisfies a barrier at once, and so swallows it: in a pipeline Build accepts,
   although c needs b and b needs a, nothing orders the step of c after the step of a.
   */
  lemma EmptyWorkflowBreaksTheChain()
    ensures Accepted(HollowChain()) && Acyclic(WorkflowEdges(HollowChain()))
    ensures Reaches(WorkflowEdges(HollowChain()), "c", "a")
    ensures !Reaches(NodeEdges(Lowered(HollowChain())), "z", "x")
  {
    var p := HollowChain();
    HollowChainIsLegal();
    HollowChainNames();
    EdgeReaches(WorkflowEdges(p), "c", "b");
    EdgeReaches(WorkflowEdges(p), "b", "a");
    ReachesTrans(WorkflowEdges(p), "c", "b", "a");
    assert PopulatedEdges(p) == {};
    EmptyReachesNothing("c", "a");
    assert p[0].steps[0] in p[0].steps && p[2].steps[0] in p[2].steps;
    BarrierReach(p, p[2], p[0], "z", "x");
  }
}
