/**
 Two closures over a recorded plan: serviceClosure, everything the services need, and selectFrom,
 everything connected to one step.
 */
module Closures {
  import opened Wrappers
  import opened Graphs
  import opened Text

  datatype PlanNode = PlanNode(id: Id, needs: seq<Id>, isService: bool)

  // ----- serviceClosure -----

  function Services(nodes: seq<PlanNode>): set<Id> {
    set n | n in nodes && n.isService :: n.id
  }

  /** The table the closure looks needs up in; a later node shadows an earlier one of the same id. */
  function ById(nodes: seq<PlanNode>): map<Id, seq<Id>> {
    if nodes == [] then map[]
    else ById(nodes[..|nodes| - 1])[nodes[|nodes| - 1].id := nodes[|nodes| - 1].needs]
  }

  function Members(ids: seq<Id>): set<Id> {
    set id | id in ids
  }

  /** A service, or something a service transitively needs. */
  ghost predicate Wanted(roots: set<Id>, E: Edges, x: Id) {
    x in roots || exists r :: r in roots && Reaches(E, r, x)
  }

  lemma WantedNeeds(roots: set<Id>, E: Edges, x: Id, y: Id)
    requires Wanted(roots, E, x) && (x, y) in E
    ensures Wanted(roots, E, y)
  {
    EdgeReaches(E, x, y);
    if x !in roots {
      var r :| r in roots && Reaches(E, r, x);
      ReachesTrans(E, r, x, y);
    }
  }

  /** A set closed under an edge relation contains every walk that starts in it. */
  lemma {:induction false} ClosedUnderWalks(E: Edges, S: set<Id>, p: seq<Id>)
    requires forall e :: e in E && e.0 in S ==> e.1 in S
    requires p != [] && IsWalk(E, p) && p[0] in S
    ensures p[|p| - 1] in S
    decreases |p|
  {
    if |p| > 1 {
      var k := |p| - 1;
      ClosedUnderWalks(E, S, p[..k]);
      assert (p[k - 1], p[k]) in E;
    }
  }

  lemma ClosedContainsWanted(roots: set<Id>, E: Edges, S: set<Id>, x: Id)
    requires roots <= S && forall e :: e in E && e.0 in S ==> e.1 in S
    requires Wanted(roots, E, x)
    ensures x in S
  {
    if x !in roots {
      var r :| r in roots && Reaches(E, r, x);
      var p :| IsWalkBetween(E, p, r, x);
      ClosedUnderWalks(E, S, p);
    }
  }

  function AllNeeds(needs: map<Id, seq<Id>>): set<Id> {
    set n, m | n in needs && m in needs[n] :: m
  }

  /** The worklist: it may grow, but never forever, since every id is expanded at most once. */
  method Expand(needs: map<Id, seq<Id>>, start: seq<Id>) returns (seen: set<Id>)
    ensures forall x :: x in seen <==> Wanted(Members(start), NeedEdges(needs), x)
  {
    ghost var roots := Members(start);
    ghost var E := NeedEdges(needs);
    ghost var universe := roots + AllNeeds(needs);
    seen := {};
    var stack := start;
    while stack != []
      invariant seen <= universe && (forall x :: x in stack ==> x in universe)
      invariant forall x :: x in seen || x in stack ==> Wanted(roots, E, x)
      invariant forall r :: r in roots ==> r in seen || r in stack
      invariant forall e :: e in E && e.0 in seen ==> e.1 in seen || e.1 in stack
      decreases universe - seen, |stack|
    {
      var id := stack[|stack| - 1];
      ghost var before := stack;
      stack := stack[..|stack| - 1];
      assert forall x :: x in before <==> x in stack || x == id;
      if id in seen { continue; }
      seen := seen + {id};
      if id in needs {
        forall m | m in needs[id] ensures Wanted(roots, E, m) && m in universe {
          assert (id, m) in E;
          WantedNeeds(roots, E, id, m);
        }
        stack := stack + needs[id];
      }
    }
    forall x | Wanted(roots, E, x) ensures x in seen { ClosedContainsWanted(roots, E, seen, x); }
  }

  lemma ServicesOneMore(nodes: seq<PlanNode>, n: PlanNode)
    ensures Services(nodes + [n]) == Services(nodes) + if n.isService then {n.id} else {}
  {
    assert forall x :: x in nodes + [n] <==> x in nodes || x == n;
  }

  lemma ByIdOneMore(nodes: seq<PlanNode>, n: PlanNode)
    ensures ById(nodes + [n]) == ById(nodes)[n.id := n.needs]
  {
    assert (nodes + [n])[..|nodes|] == nodes;
  }

  /** The first loop: the table of needs, and the services in plan order. */
  method IndexNodes(nodes: seq<PlanNode>) returns (byId: map<Id, seq<Id>>, services: seq<Id>)
    ensures byId == ById(nodes) && Members(services) == Services(nodes)
  {
    byId, services := map[], [];
    for k := 0 to |nodes|
      invariant byId == ById(nodes[..k]) && Members(services) == Services(nodes[..k])
    {
      assert nodes[..k + 1] == nodes[..k] + [nodes[k]];
      ByIdOneMore(nodes[..k], nodes[k]);
      ServicesOneMore(nodes[..k], nodes[k]);
      byId := byId[nodes[k].id := nodes[k].needs];
      if nodes[k].isService { services := services + [nodes[k].id]; }
    }
    assert nodes[..|nodes|] == nodes;
  }

  /** The sorted ids `senro up` runs, or an error when the plan declares no service. */
  method ServiceClosure(nodes: seq<PlanNode>) returns (r: Result<seq<Id>, string>)
    ensures r.Ok? <==> Services(nodes) != {}
    ensures r.Ok? ==> Ascending(r.value) &&
                      forall x :: x in r.value <==> Wanted(Services(nodes), NeedEdges(ById(nodes)), x)
  {
    var byId, services := IndexNodes(nodes);
    if services == [] { return Err("this pipeline declares no services"); }
    assert services[0] in Members(services);
    var seen := Expand(byId, services);
    var out := SortedMembers(seen);
    return Ok(out);
  }

  // ----- selectFrom -----

  function NodeEdges(nodes: seq<PlanNode>): Edges {
    set n, m | n in nodes && m in n.needs :: (n.id, m)
  }

  /** Needs read in both directions. */
  function Undirected(E: Edges): Edges {
    E + set e | e in E :: (e.1, e.0)
  }

  /** Connected to the step through needs and dependents, in any mixture. */
  ghost predicate Connected(nodes: seq<PlanNode>, step: Id, x: Id) {
    x == step || Reaches(Undirected(NodeEdges(nodes)), step, x)
  }

  /** A node both of whose rules are exhausted. */
  predicate Settled(n: PlanNode, chosen: set<Id>) {
    if n.id in chosen then forall m :: m in n.needs ==> m in chosen
    else forall m :: m in n.needs ==> m !in chosen
  }

  lemma ConnectedStep(nodes: seq<PlanNode>, step: Id, n: PlanNode, m: Id)
    requires n in nodes && m in n.needs
    ensures Connected(nodes, step, n.id) <==> Connected(nodes, step, m)
  {
    var U := Undirected(NodeEdges(nodes));
    assert (n.id, m) in NodeEdges(nodes);
    EdgeReaches(U, n.id, m);
    assert (m, n.id) in U by { assert ((n.id, m).1, (n.id, m).0) == (m, n.id); }
    EdgeReaches(U, m, n.id);
    if Connected(nodes, step, n.id) && step != n.id { ReachesTrans(U, step, n.id, m); }
    if Connected(nodes, step, m) && step != m { ReachesTrans(U, step, m, n.id); }
  }

  lemma SettledContains(nodes: seq<PlanNode>, step: Id, chosen: set<Id>, x: Id)
    requires step in chosen && forall n :: n in nodes ==> Settled(n, chosen)
    requires Connected(nodes, step, x)
    ensures x in chosen
  {
    if x != step {
      var U := Undirected(NodeEdges(nodes));
      forall e | e in U && e.0 in chosen ensures e.1 in chosen {
        if e in NodeEdges(nodes) {
          var n, m :| n in nodes && m in n.needs && e == (n.id, m);
        } else {
          var f :| f in NodeEdges(nodes) && e == (f.1, f.0);
          var n, m :| n in nodes && m in n.needs && f == (n.id, m);
        }
      }
      var p :| IsWalkBetween(U, p, step, x);
      ClosedUnderWalks(U, chosen, p);
    }
  }

  /** One node of a pass: a chosen node pulls in its needs, another is pulled in by them. */
  method Visit(n: PlanNode, chosen: set<Id>) returns (chosen': set<Id>, grew: bool)
    ensures chosen <= chosen' && (grew <==> chosen' != chosen)
    ensures forall x :: x in chosen' - chosen ==>
              (n.id in chosen && x in n.needs) || (x == n.id && exists m :: m in n.needs && m in chosen)
    ensures !grew ==> Settled(n, chosen)
  {
    chosen', grew := chosen, false;
    if n.id in chosen {
      for j := 0 to |n.needs|
        invariant chosen <= chosen' && (grew <==> chosen' != chosen)
        invariant forall x :: x in chosen' - chosen ==> x in n.needs
        invariant forall i :: 0 <= i < j ==> n.needs[i] in chosen'
      {
        if n.needs[j] !in chosen' {
          assert n.needs[j] in n.needs;
          chosen' := chosen' + {n.needs[j]};
          grew := true;
        }
      }
      return;
    }
    for j := 0 to |n.needs|
      invariant chosen' == chosen && !grew
      invariant forall i :: 0 <= i < j ==> n.needs[i] !in chosen
    {
      if n.needs[j] in chosen {
        assert n.needs[j] in n.needs;
        return chosen + {n.id}, true;
      }
    }
  }

  ghost function Universe(nodes: seq<PlanNode>, step: Id): set<Id> {
    {step} + (set n | n in nodes :: n.id) + set n, m | n in nodes && m in n.needs :: m
  }

  /** One pass over the plan; a pass that adds nothing leaves every node settled. */
  method Pass(nodes: seq<PlanNode>, step: Id, chosen: set<Id>) returns (chosen': set<Id>, grew: bool)
    requires forall x :: x in chosen ==> Connected(nodes, step, x) && x in Universe(nodes, step)
    ensures chosen <= chosen' && (grew <==> chosen' != chosen)
    ensures forall x :: x in chosen' ==> Connected(nodes, step, x) && x in Universe(nodes, step)
    ensures !grew ==> forall n :: n in nodes ==> Settled(n, chosen)
  {
    chosen', grew := chosen, false;
    for i := 0 to |nodes|
      invariant chosen <= chosen' && (grew <==> chosen' != chosen)
      invariant forall x :: x in chosen' ==> Connected(nodes, step, x) && x in Universe(nodes, step)
      invariant !grew ==> forall j :: 0 <= j < i ==> Settled(nodes[j], chosen)
    {
      var n := nodes[i];
      var next, g := Visit(n, chosen');
      forall x | x in next - chosen' ensures Connected(nodes, step, x) && x in Universe(nodes, step) {
        assert n in nodes;
        if n.id in chosen' && x in n.needs {
          ConnectedStep(nodes, step, n, x);
        } else {
          var m :| m in n.needs && m in chosen';
          ConnectedStep(nodes, step, n, m);
        }
      }
      chosen', grew := next, grew || g;
    }
  }

  /**
   The sorted selection of a rerun: exactly the steps connected to the one asked for through needs and
   dependents in any mixture.
   */
  method SelectFrom(nodes: seq<PlanNode>, step: Id) returns (r: Result<seq<Id>, string>)
    ensures r.Ok? <==> exists n :: n in nodes && n.id == step
    ensures r.Ok? ==> Ascending(r.value) && forall x :: x in r.value <==> Connected(nodes, step, x)
  {
    var found := false;
    for i := 0 to |nodes|
      invariant found <==> exists j :: 0 <= j < i && nodes[j].id == step
    {
      if nodes[i].id == step {
        found := true;
        break;
      }
    }
    if !found { return Err("the recorded plan has no such step"); }
    var chosen := {step};
    var grew := true;
    while grew
      invariant step in chosen
      invariant forall x :: x in chosen ==> Connected(nodes, step, x) && x in Universe(nodes, step)
      invariant !grew ==> forall n :: n in nodes ==> Settled(n, chosen)
      decreases Universe(nodes, step) - chosen, grew
    {
      chosen, grew := Pass(nodes, step, chosen);
    }
    forall x | Connected(nodes, step, x) ensures x in chosen { SettledContains(nodes, step, chosen, x); }
    var out := SortedMembers(chosen);
    return Ok(out);
  }

  /** The selection is the least set with the step that is closed under needs and dependents. */
  lemma SelectionIsLeast(nodes: seq<PlanNode>, step: Id, S: set<Id>)
    requires step in S
    requires forall n, m :: n in nodes && m in n.needs ==> (n.id in S <==> m in S)
    ensures forall x :: Connected(nodes, step, x) ==> x in S
    ensures forall n, m :: n in nodes && m in n.needs ==> (Connected(nodes, step, n.id) <==> Connected(nodes, step, m))
  {
    forall x | Connected(nodes, step, x) ensures x in S { SettledContains(nodes, step, S, x); }
    forall n, m | n in nodes && m in n.needs ensures Connected(nodes, step, n.id) <==> Connected(nodes, step, m) {
      ConnectedStep(nodes, step, n, m);
    }
  }

  // ----- how far the selection goes beyond ancestors and descendants -----

  /** The documented selection: the step, what it transitively needs, and what transitively needs it. */
  ghost predicate InCone(nodes: seq<PlanNode>, step: Id, x: Id) {
    x == step || Reaches(NodeEdges(nodes), step, x) || Reaches(NodeEdges(nodes), x, step)
  }

  /** No edge leads out of the cone: an ancestor needs nothing outside it, and only it needs a descendant. */
  ghost predicate ConeClosed(nodes: seq<PlanNode>, step: Id) {
    forall n, m :: n in nodes && m in n.needs ==>
      && (Reaches(NodeEdges(nodes), n.id, step) ==> InCone(nodes, step, m))
      && (Reaches(NodeEdges(nodes), step, m) ==> InCone(nodes, step, n.id))
  }

  lemma {:induction false} WalkConnected(nodes: seq<PlanNode>, step: Id, p: seq<Id>)
    requires p != [] && IsWalk(NodeEdges(nodes), p)
    ensures Connected(nodes, step, p[0]) <==> Connected(nodes, step, p[|p| - 1])
    decreases |p|
  {
    if |p| > 1 {
      var k := |p| - 1;
      WalkFront(NodeEdges(nodes), p, k);
      WalkConnected(nodes, step, p[..k]);
      var n, m :| n in nodes && m in n.needs && (p[k - 1], p[k]) == (n.id, m);
      ConnectedStep(nodes, step, n, m);
    }
  }

  /** What is documented as selected is selected. */
  lemma ConeIsConnected(nodes: seq<PlanNode>, step: Id, x: Id)
    requires InCone(nodes, step, x)
    ensures Connected(nodes, step, x)
  {
    var E := NodeEdges(nodes);
    if Reaches(E, step, x) {
      var p :| IsWalkBetween(E, p, step, x);
      WalkConnected(nodes, step, p);
    } else if Reaches(E, x, step) {
      var p :| IsWalkBetween(E, p, x, step);
      WalkConnected(nodes, step, p);
    }
  }

  /** In a closed cone an edge with one end inside has both inside. */
  lemma ConeEdge(nodes: seq<PlanNode>, step: Id, n: PlanNode, m: Id)
    requires ConeClosed(nodes, step) && n in nodes && m in n.needs
    ensures InCone(nodes, step, n.id) <==> InCone(nodes, step, m)
  {
    var E := NodeEdges(nodes);
    assert (n.id, m) in E;
    EdgeReaches(E, n.id, m);
    if Reaches(E, step, n.id) { ReachesTrans(E, step, n.id, m); }
    if Reaches(E, m, step) { ReachesTrans(E, n.id, m, step); }
  }

  lemma ClosedConeIsAll(nodes: seq<PlanNode>, step: Id, x: Id)
    requires ConeClosed(nodes, step) && Connected(nodes, step, x)
    ensures InCone(nodes, step, x)
  {
    var cone := set y | y in Universe(nodes, step) + {x} && InCone(nodes, step, y);
    forall n | n in nodes ensures Settled(n, cone) {
      forall m | m in n.needs ensures n.id in cone <==> m in cone { ConeEdge(nodes, step, n, m); }
    }
    SettledContains(nodes, step, cone, x);
  }

  /** The rerun selects the documented steps exactly when no edge leads out of their cone. */
  lemma SelectsConeExactlyWhen(nodes: seq<PlanNode>, step: Id)
    ensures (forall x :: Connected(nodes, step, x) <==> InCone(nodes, step, x)) <==> ConeClosed(nodes, step)
  {
    if forall x :: Connected(nodes, step, x) <==> InCone(nodes, step, x) {
      forall n, m | n in nodes && m in n.needs
        ensures Reaches(NodeEdges(nodes), n.id, step) ==> InCone(nodes, step, m)
        ensures Reaches(NodeEdges(nodes), step, m) ==> InCone(nodes, step, n.id)
      {
        ConnectedStep(nodes, step, n, m);
        assert InCone(nodes, step, n.id) <==> Connected(nodes, step, n.id);
        assert InCone(nodes, step, m) <==> Connected(nodes, step, m);
      }
    }
    if ConeClosed(nodes, step) {
      forall x ensures Connected(nodes, step, x) <==> InCone(nodes, step, x) {
        if InCone(nodes, step, x) { ConeIsConnected(nodes, step, x); }
        if Connected(nodes, step, x) { ClosedConeIsAll(nodes, step, x); }
      }
    }
  }

  /** Two steps that need the same one, and nothing else. */
  function Siblings(): seq<PlanNode> {
    [PlanNode("a", [], false), PlanNode("x", ["a"], false), PlanNode("y", ["a"], false)]
  }

  lemma SiblingEdges()
    ensures NodeEdges(Siblings()) == {("x", "a"), ("y", "a")}
  {
    assert Siblings()[1] in Siblings() && Siblings()[2] in Siblings();
    assert forall n :: n in Siblings() ==> n == Siblings()[0] || n == Siblings()[1] || n == Siblings()[2];
  }

  /** A rerun from x takes its sibling y along, which neither needs x nor is needed by it. */
  lemma SiblingIsSelected()
    ensures Connected(Siblings(), "x", "y") && !InCone(Siblings(), "x", "y")
  {
    var nodes := Siblings();
    var E := NodeEdges(nodes);
    SiblingEdges();
    assert nodes[1] in nodes && nodes[2] in nodes;
    ConnectedStep(nodes, "x", nodes[1], "a");
    ConnectedStep(nodes, "x", nodes[2], "a");
    if Reaches(E, "x", "y") {
      var p :| IsWalkBetween(E, p, "x", "y");
      ClosedUnderWalks(E, {"x", "a"}, p);
    }
    if Reaches(E, "y", "x") {
      var p :| IsWalkBetween(E, p, "y", "x");
      ClosedUnderWalks(E, {"y", "a"}, p);
    }
  }
}
