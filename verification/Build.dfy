/** Build: pair the expansions, check the workflow layer, flatten the steps, lower the barriers. */
module Builds {
  import opened Wrappers
  import opened Graphs
  import opened Pipelines
  import opened Lowering
  import opened Barriers
  import opened WorkflowChecks
  import opened PerUnitPairing

  /**
   What an accepted pipeline's plan promises: it waits for whole barriers, and has no cycle unless a workflow is
   cyclic on its own or a step needs across workflows against their order.
   */
  ghost predicate Delivers(p: Pipeline, nodes: seq<Node>) {
    && nodes == Lowered(p)
    && (InternallyAcyclic(p) ==>
          forall a, b :: Reaches(NodeEdges(nodes), a, b) <==> Reaches(StepEdges(p) + FullBarrier(p), a, b))
    && (InternallyAcyclic(p) && CrossNeedsFollowWorkflows(p) ==> Acyclic(NodeEdges(nodes)))
  }

  /**
   The flat plan of a pipeline whose expansions are paired, or the first reason to refuse it.
   */
  method BuildLayer(p: Pipeline) returns (r: Result<seq<Node>, BuildError>)
    ensures r.Ok? <==> Accepted(p) && Acyclic(WorkflowEdges(p))
    ensures r.Ok? ==> Delivers(p, r.value)
  {
    var names := CheckWorkflowNames(p);
    if names.Some? { return Err(names.value); }
    var needs := CheckWorkflowNeeds(p);
    if needs.Some? { return Err(needs.value); }
    var nodes: seq<Node> := [];
    for k := 0 to |p|
      invariant nodes == NodesOf(p[..k])
    {
      assert p[..k + 1][..k] == p[..k];
      var steps := p[k].steps;
      ghost var before := nodes;
      for j := 0 to |steps|
        invariant nodes == before + NodesOfSteps(steps[..j])
      {
        nodes := nodes + [Node(steps[j].id, steps[j].needs)];
        assert NodesOfSteps(steps[..j + 1]) == NodesOfSteps(steps[..j]) + [Node(steps[j].id, steps[j].needs)];
      }
      assert steps[..|steps|] == steps;
    }
    assert p[..|p|] == p;
    var pl := new Plan(nodes);
    LowerWorkflowNeeds(pl, p);
    if InternallyAcyclic(p) {
      LoweringPreservesBarrier(p);
      if CrossNeedsFollowWorkflows(p) { LoweredAcyclic(p); }
    }
    return Ok(pl.nodes);
  }

  // ----- from declarations -----

  /** A workflow as declared, its expansions already resolved into children. */
  datatype Declared = Declared(name: Id, needs: seq<Id>, steps: seq<StepBuilder>, expansions: seq<Expansion>)

  function ChildrenOf(xs: seq<Expansion>): seq<StepBuilder> {
    if xs == [] then [] else ChildrenOf(xs[..|xs| - 1]) + xs[|xs| - 1].children
  }

  function Expansions(ws: seq<Declared>): seq<Expansion> {
    if ws == [] then [] else Expansions(ws[..|ws| - 1]) + ws[|ws| - 1].expansions
  }

  /** A workflow's own steps, then its expansions' children. */
  function Members(w: Declared): seq<StepBuilder> {
    w.steps + ChildrenOf(w.expansions)
  }

  ghost function Declarations(ws: seq<Declared>): set<StepBuilder> {
    set w, b | w in ws && b in Members(w) :: b
  }

  function Steps(bs: seq<StepBuilder>): seq<Step>
    reads bs
  {
    seq(|bs|, i requires 0 <= i < |bs| reads bs => Step(bs[i].id, bs[i].needs))
  }

  /** The pipeline as its builders stand now. */
  function Resolved(ws: seq<Declared>): Pipeline
    reads Declarations(ws)
  {
    seq(|ws|, k requires 0 <= k < |ws| reads Declarations(ws) =>
      (assert ws[k] in ws;
       assert forall b :: b in Members(ws[k]) ==> b in Declarations(ws);
       Workflow(ws[k].name, ws[k].needs, Steps(Members(ws[k])))))
  }

  datatype Refusal = BadPairing(pairing: PairError) | BadWorkflows(workflows: BuildError)

  lemma {:induction false} ChildIsMember(xs: seq<Expansion>, i: nat, c: StepBuilder)
    requires i < |xs| && c in xs[i].children
    ensures c in ChildrenOf(xs)
  {
    if i < |xs| - 1 { ChildIsMember(xs[..|xs| - 1], i, c); }
  }

  lemma {:induction false} ExpansionHasOwner(ws: seq<Declared>, x: Expansion) returns (k: nat)
    requires x in Expansions(ws)
    ensures k < |ws| && x in ws[k].expansions
  {
    var n := |ws| - 1;
    if x in ws[n].expansions { k := n; } else { k := ExpansionHasOwner(ws[..n], x); }
  }

  /** Every need of every child is an edge of the step graph. */
  lemma ChildEdge(ws: seq<Declared>, x: Expansion, c: StepBuilder, u: Id)
    requires x in Expansions(ws) && c in x.children && u in c.needs
    ensures NamesDistinct(Resolved(ws)) ==> (c.id, u) in NodeEdges(Lowered(Resolved(ws)))
  {
    var k := ExpansionHasOwner(ws, x);
    var xs := ws[k].expansions;
    var j :| 0 <= j < |xs| && xs[j] == x;
    ChildIsMember(xs, j, c);
    var bs := Members(ws[k]);
    assert c in bs;
    var i :| 0 <= i < |bs| && bs[i] == c;
    var w := Resolved(ws)[k];
    assert w in Resolved(ws) && w.steps[i] in w.steps && w.steps[i] == Step(c.id, c.needs);
    if NamesDistinct(Resolved(ws)) { LoweredEdges(Resolved(ws)); }
  }

  /** The first loop of Build: the resolved steps of each workflow. */
  method ResolveSteps(ws: seq<Declared>) returns (resolved: seq<seq<StepBuilder>>)
    ensures |resolved| == |ws| && forall k :: 0 <= k < |ws| ==> resolved[k] == Members(ws[k])
  {
    resolved := [];
    for k := 0 to |ws|
      invariant |resolved| == k && forall i :: 0 <= i < k ==> resolved[i] == Members(ws[i])
    {
      var steps, es := ws[k].steps, ws[k].expansions;
      for j := 0 to |es|
        invariant steps == ws[k].steps + ChildrenOf(es[..j])
      {
        assert es[..j + 1][..j] == es[..j];
        steps := steps + es[j].children;
      }
      assert es[..|es|] == es;
      resolved := resolved + [steps];
    }
  }

  // ----- the plan, said of the builders -----

  /** The builders declared in w, as steps of its own or as children of its expansions. */
  predicate Declares(w: Declared, b: StepBuilder) {
    b in w.steps || exists x :: x in w.expansions && b in x.children
  }

  /** The same as a set. */
  ghost function Owned(w: Declared): (o: set<StepBuilder>)
    ensures forall b :: b in w.steps ==> b in o
    ensures forall x, b :: x in w.expansions && b in x.children ==> b in o
    ensures forall b :: b in o ==> Declares(w, b)
  {
    (set b | b in w.steps) + set x, b | x in w.expansions && b in x.children :: b
  }

  ghost function AllBuilders(ws: seq<Declared>): set<StepBuilder> {
    set w, b | w in ws && b in Owned(w) :: b
  }

  /** A node of the plan keeps the builder's needs, and may add to them. */
  predicate HasNode(b: StepBuilder, nodes: seq<Node>)
    reads b
  {
    exists n :: n in nodes && n.id == b.id && b.needs <= n.needs
  }

  /** Every builder has its node, and every node is some builder's. */
  ghost predicate Complete(ws: seq<Declared>, nodes: seq<Node>)
    reads AllBuilders(ws)
  {
    && (forall w, b :: w in ws && b in Owned(w) ==> HasNode(b, nodes))
    && (forall n :: n in nodes ==> exists w, b :: w in ws && b in Owned(w) && b.id == n.id)
  }

  /** Every builder of a workflow waits, in the plan, for every builder of each workflow it needs. */
  ghost predicate BarriersHold(ws: seq<Declared>, nodes: seq<Node>) {
    forall w, v, a, b :: w in ws && v in ws && v.name in w.needs && a in Owned(w) && b in Owned(v) ==>
      Reaches(NodeEdges(nodes), a.id, b.id)
  }

  lemma {:induction false} ChildrenAre(xs: seq<Expansion>, b: StepBuilder)
    ensures b in ChildrenOf(xs) <==> exists x :: x in xs && b in x.children
  {
    if xs != [] {
      var k := |xs| - 1;
      ChildrenAre(xs[..k], b);
      assert xs == xs[..k] + [xs[k]];
      assert xs[k] in xs;
    }
  }

  lemma MembersAre(w: Declared, b: StepBuilder)
    ensures b in Members(w) <==> Declares(w, b)
  {
    ChildrenAre(w.expansions, b);
  }

  /** The resolved step of a builder. */
  lemma StepOfBuilder(ws: seq<Declared>, k: nat, b: StepBuilder)
    requires k < |ws| && Declares(ws[k], b)
    ensures Resolved(ws)[k] in Resolved(ws) && Step(b.id, b.needs) in Resolved(ws)[k].steps
    ensures Resolved(ws)[k].name == ws[k].name && Resolved(ws)[k].needs == ws[k].needs
  {
    MembersAre(ws[k], b);
    var bs := Members(ws[k]);
    var i :| 0 <= i < |bs| && bs[i] == b;
    assert ws[k] in ws;
    assert Resolved(ws)[k].steps[i] == Step(b.id, b.needs);
  }

  lemma BuilderOfStep(ws: seq<Declared>, k: nat, s: Step) returns (b: StepBuilder)
    requires k < |ws| && s in Resolved(ws)[k].steps
    ensures b in Owned(ws[k]) && s == Step(b.id, b.needs)
  {
    var bs := Members(ws[k]);
    assert ws[k] in ws;
    var i :| 0 <= i < |bs| && Resolved(ws)[k].steps[i] == s;
    b := bs[i];
    MembersAre(ws[k], b);
  }

  lemma BuilderHasNode(ws: seq<Declared>, w: Declared, b: StepBuilder)
    requires w in ws && b in Owned(w)
    ensures HasNode(b, Lowered(Resolved(ws)))
  {
    var p := Resolved(ws);
    var k :| 0 <= k < |ws| && ws[k] == w;
    StepOfBuilder(ws, k, b);
    NodesOfMembers(p);
    assert IsNodeOf(p, Node(b.id, b.needs));
    var nodes := NodesOf(p);
    var i :| 0 <= i < |nodes| && nodes[i] == Node(b.id, b.needs);
    var n := Lowered(p)[i];
    assert n in Lowered(p);
  }

  lemma NodeHasBuilder(ws: seq<Declared>, n: Node)
    requires n in Lowered(Resolved(ws))
    ensures exists w, b :: w in ws && b in Owned(w) && b.id == n.id
  {
    var p := Resolved(ws);
    var nodes := NodesOf(p);
    NodesOfMembers(p);
    var i :| 0 <= i < |nodes| && Lowered(p)[i] == n;
    assert nodes[i] in nodes && IsNodeOf(p, nodes[i]);
    var w, s :| w in p && s in w.steps && nodes[i] == Node(s.id, s.needs);
    var k :| 0 <= k < |p| && p[k] == w;
    var b := BuilderOfStep(ws, k, s);
    assert ws[k] in ws;
  }

  lemma PlanComplete(ws: seq<Declared>)
    ensures Complete(ws, Lowered(Resolved(ws)))
  {
    var nodes := Lowered(Resolved(ws));
    forall w, b | w in ws && b in Owned(w) ensures HasNode(b, nodes) { BuilderHasNode(ws, w, b); }
    forall n | n in nodes ensures exists w, b :: w in ws && b in Owned(w) && b.id == n.id { NodeHasBuilder(ws, n); }
  }

  lemma BarrierOfBuilders(ws: seq<Declared>, w: Declared, v: Declared, a: StepBuilder, b: StepBuilder)
    requires NamesDistinct(Resolved(ws)) && StepsDistinct(Resolved(ws)) && InternallyAcyclic(Resolved(ws))
    requires w in ws && v in ws && v.name in w.needs && Declares(w, a) && Declares(v, b)
    ensures Reaches(NodeEdges(Lowered(Resolved(ws))), a.id, b.id)
  {
    var p := Resolved(ws);
    var k :| 0 <= k < |ws| && ws[k] == w;
    var m :| 0 <= m < |ws| && ws[m] == v;
    StepOfBuilder(ws, k, a);
    StepOfBuilder(ws, m, b);
    LoweredEdges(p);
    BarrierEdgeWaits(p, p[k], p[m], a.id, b.id);
  }

  lemma PlanBarriers(ws: seq<Declared>)
    requires NamesDistinct(Resolved(ws)) && StepsDistinct(Resolved(ws)) && InternallyAcyclic(Resolved(ws))
    ensures BarriersHold(ws, Lowered(Resolved(ws)))
  {
    forall w, v, a, b | w in ws && v in ws && v.name in w.needs && a in Owned(w) && b in Owned(v)
      ensures Reaches(NodeEdges(Lowered(Resolved(ws))), a.id, b.id)
    {
      BarrierOfBuilders(ws, w, v, a, b);
    }
  }

  /** The needs of every expansion child are edges of the plan. */
  ghost predicate Wired(xs: seq<Expansion>, nodes: seq<Node>)
    reads Builders(xs)
  {
    forall x, c, u :: x in xs && c in x.children && c in Builders(xs) && u in c.needs ==> (c.id, u) in NodeEdges(nodes)
  }

  /**
   Per-unit edges are in place before any entry or exit is computed: what is accepted has them all among its
   edges, and its barriers are those of the steps with their per-unit needs. Only expansion children change.
   */
  method Build(ws: seq<Declared>) returns (r: Result<seq<Node>, Refusal>)
    requires ChildrenDistinct(Expansions(ws))
    modifies Builders(Expansions(ws))
    ensures r.Ok? <==>
            AllPairable(Expansions(ws)) && Accepted(Resolved(ws)) && Acyclic(WorkflowEdges(Resolved(ws)))
    ensures r.Ok? ==>
              var xs := Expansions(ws);
              forall i, c :: 0 <= i < |xs| && c in xs[i].children ==>
                WaitsExactly(xs, xs[i], c, old(c.needs), c.needs)
    ensures r.Ok? ==> Wired(Expansions(ws), r.value) && Delivers(Resolved(ws), r.value)
    ensures r.Ok? ==> Complete(ws, r.value) && (InternallyAcyclic(Resolved(ws)) ==> BarriersHold(ws, r.value))
  {
    r := BuildFrom(ws, Expansions(ws));
  }

  /** Build, its expansions gathered. */
  method BuildFrom(ws: seq<Declared>, xs: seq<Expansion>) returns (r: Result<seq<Node>, Refusal>)
    requires ChildrenDistinct(xs) && xs == Expansions(ws)
    modifies Builders(xs)
    ensures r.Ok? <==> AllPairable(xs) && Accepted(Resolved(ws)) && Acyclic(WorkflowEdges(Resolved(ws)))
    ensures r.Ok? ==>
              forall i, c :: 0 <= i < |xs| && c in xs[i].children ==>
                WaitsExactly(xs, xs[i], c, old(c.needs), c.needs)
    ensures r.Ok? ==> Wired(xs, r.value) && Delivers(Resolved(ws), r.value)
    ensures r.Ok? ==> Complete(ws, r.value) && (InternallyAcyclic(Resolved(ws)) ==> BarriersHold(ws, r.value))
  {
    var resolved := ResolveSteps(ws);
    var unpaired := LowerNeedsEach(xs);
    if unpaired.Some? { return Err(BadPairing(unpaired.value)); }
    var plan := PlanOf(ws, resolved);
    if plan.Err? { return Err(BadWorkflows(plan.error)); }
    return Ok(plan.value);
  }

  /** The rest of Build, on the builders as pairing left them. */
  method PlanOf(ws: seq<Declared>, resolved: seq<seq<StepBuilder>>) returns (r: Result<seq<Node>, BuildError>)
    requires |resolved| == |ws| && forall k :: 0 <= k < |ws| ==> resolved[k] == Members(ws[k])
    ensures r.Ok? <==> Accepted(Resolved(ws)) && Acyclic(WorkflowEdges(Resolved(ws)))
    ensures r.Ok? ==> Wired(Expansions(ws), r.value) && Delivers(Resolved(ws), r.value)
    ensures r.Ok? ==> Complete(ws, r.value) && (InternallyAcyclic(Resolved(ws)) ==> BarriersHold(ws, r.value))
  {
    var p := Resolved(ws);
    r := BuildLayer(p);
    forall k | 0 <= k < |ws| ensures Resolved(ws)[k] == p[k] {
      assert ws[k] in ws && Steps(resolved[k]) == p[k].steps;
    }
    assert Resolved(ws) == p;
    if r.Ok? {
      AllWired(ws);
      PlanComplete(ws);
      if InternallyAcyclic(Resolved(ws)) { PlanBarriers(ws); }
    }
  }

  lemma AllWired(ws: seq<Declared>)
    requires NamesDistinct(Resolved(ws))
    ensures Wired(Expansions(ws), Lowered(Resolved(ws)))
  {
    var xs := Expansions(ws);
    forall x, c, u | x in xs && c in x.children && c in Builders(xs) && u in c.needs
      ensures (c.id, u) in NodeEdges(Lowered(Resolved(ws)))
    {
      ChildEdge(ws, x, c, u);
    }
  }
}
