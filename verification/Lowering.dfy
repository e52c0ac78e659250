/**
 lowerWorkflowNeeds: each workflow-level Needs becomes edges from the entry steps of the dependent
 workflow to the exit steps of the workflow it needs.
 */
module Lowering {
  import opened Graphs
  import opened Pipelines

  // ----- entry and exit steps -----

  predicate IsEntry(mine: set<Id>, s: Step) {
    forall n :: n in s.needs ==> n !in mine
  }

  /** Ids some step of `steps` needs, among `mine`. */
  function Depended(mine: set<Id>, steps: seq<Step>): set<Id> {
    set s, n | s in steps && n in s.needs && n in mine :: n
  }

  function EntriesOf(mine: set<Id>, steps: seq<Step>): seq<Id> {
    if steps == [] then []
    else
      var k := |steps| - 1;
      EntriesOf(mine, steps[..k]) + if IsEntry(mine, steps[k]) then [steps[k].id] else []
  }

  function ExitsOf(depended: set<Id>, steps: seq<Step>): seq<Id> {
    if steps == [] then []
    else
      var k := |steps| - 1;
      ExitsOf(depended, steps[..k]) + if steps[k].id !in depended then [steps[k].id] else []
  }

  function Entries(steps: seq<Step>): seq<Id> {
    EntriesOf(StepIds(steps), steps)
  }

  function Exits(steps: seq<Step>): seq<Id> {
    ExitsOf(Depended(StepIds(steps), steps), steps)
  }

  predicate NamesEntry(mine: set<Id>, steps: seq<Step>, id: Id) {
    exists s :: s in steps && s.id == id && IsEntry(mine, s)
  }

  lemma {:induction false} EntriesOfMembers(mine: set<Id>, steps: seq<Step>)
    ensures forall id :: id in EntriesOf(mine, steps) <==> NamesEntry(mine, steps, id)
  {
    if steps != [] {
      var k := |steps| - 1;
      EntriesOfMembers(mine, steps[..k]);
      forall id
        ensures NamesEntry(mine, steps, id) <==>
                NamesEntry(mine, steps[..k], id) || (id == steps[k].id && IsEntry(mine, steps[k]))
      {
        if s :| s in steps && s.id == id && IsEntry(mine, s) {
          assert s in steps[..k] || s == steps[k];
        }
      }
    }
  }

  lemma {:induction false} EntriesOfDistinct(mine: set<Id>, steps: seq<Step>)
    requires IdsDistinct(steps)
    ensures Distinct(EntriesOf(mine, steps))
  {
    if steps != [] {
      var k := |steps| - 1;
      EntriesOfDistinct(mine, steps[..k]);
      EntriesOfMembers(mine, steps[..k]);
      var front := EntriesOf(mine, steps[..k]);
      forall i | 0 <= i < |front| ensures front[i] != steps[k].id {
        assert front[i] in front && NamesEntry(mine, steps[..k], front[i]);
        var s :| s in steps[..k] && s.id == front[i];
      }
      assert EntriesOf(mine, steps) == front || EntriesOf(mine, steps) == front + [steps[k].id];
    }
  }

  lemma {:induction false} ExitsOfMembers(depended: set<Id>, steps: seq<Step>)
    ensures forall id :: id in ExitsOf(depended, steps) <==> id in StepIds(steps) && id !in depended
  {
    if steps != [] {
      var k := |steps| - 1;
      ExitsOfMembers(depended, steps[..k]);
      assert steps == steps[..k] + [steps[k]];
      assert StepIds(steps) == StepIds(steps[..k]) + {steps[k].id};
    }
  }

  /** Entry steps are exactly the steps with no internal edge out. */
  lemma EntriesAreSinks(steps: seq<Step>, id: Id)
    requires IdsDistinct(steps)
    ensures id in Entries(steps) <==>
            id in StepIds(steps) && forall b :: b in StepIds(steps) ==> (id, b) !in InternalEdges(steps)
  {
    EntriesOfMembers(StepIds(steps), steps);
    if id in StepIds(steps) {
      var s :| s in steps && s.id == id;
      assert forall t :: t in steps && t.id == id ==> t == s;
      forall b | b in s.needs && b in StepIds(steps) ensures (id, b) in InternalEdges(steps) {
        assert s in steps && b in s.needs;
      }
    }
  }

  /** Exit steps are exactly the steps no internal edge points to. */
  lemma ExitsAreSources(steps: seq<Step>, id: Id)
    ensures id in Exits(steps) <==>
            id in StepIds(steps) && forall a :: a in StepIds(steps) ==> (a, id) !in InternalEdges(steps)
  {
    var mine := StepIds(steps);
    ExitsOfMembers(Depended(mine, steps), steps);
    if id in mine && id in Depended(mine, steps) {
      var s :| s in steps && id in s.needs;
      assert (s.id, id) in InternalEdges(steps);
    }
  }

  method EntrySteps(steps: seq<Step>) returns (out: seq<Id>)
    ensures out == Entries(steps)
  {
    var mine := StepIds(steps);
    out := [];
    for k := 0 to |steps|
      invariant out == EntriesOf(mine, steps[..k])
    {
      var internal := false;
      var needs := steps[k].needs;
      for j := 0 to |needs|
        invariant !internal
        invariant forall i :: 0 <= i < j ==> needs[i] !in mine
      {
        if needs[j] in mine {
          internal := true;
          break;
        }
      }
      assert steps[..k + 1][..k] == steps[..k];
      assert internal <==> !IsEntry(mine, steps[k]);
      if !internal {
        out := out + [steps[k].id];
      }
    }
    assert steps[..|steps|] == steps;
  }

  method ExitSteps(steps: seq<Step>) returns (out: seq<Id>)
    ensures out == Exits(steps)
  {
    var mine := StepIds(steps);
    var depended: set<Id> := {};
    for k := 0 to |steps|
      invariant depended == Depended(mine, steps[..k])
    {
      ghost var before := depended;
      var needs := steps[k].needs;
      for j := 0 to |needs|
        invariant depended == before + set i | 0 <= i < j && needs[i] in mine :: needs[i]
      {
        if needs[j] in mine {
          depended := depended + {needs[j]};
        }
      }
      assert steps[..k + 1] == steps[..k] + [steps[k]];
    }
    assert steps[..|steps|] == steps;
    out := [];
    for k := 0 to |steps|
      invariant out == ExitsOf(depended, steps[..k])
    {
      assert steps[..k + 1][..k] == steps[..k];
      if steps[k].id !in depended {
        out := out + [steps[k].id];
      }
    }
    assert steps[..|steps|] == steps;
  }

  // ----- the plan and its lowering -----

  datatype Node = Node(id: Id, needs: seq<Id>)

  class Plan {
    var nodes: seq<Node>

    constructor (nodes: seq<Node>)
      ensures this.nodes == nodes
    {
      this.nodes := nodes;
    }
  }

  function NodeEdges(nodes: seq<Node>): Edges {
    set n, d | n in nodes && d in n.needs :: (n.id, d)
  }

  function NodesOfSteps(steps: seq<Step>): seq<Node> {
    seq(|steps|, i requires 0 <= i < |steps| => Node(steps[i].id, steps[i].needs))
  }

  /** The plan's nodes before the workflow layer is lowered: one per step, in declaration order. */
  function NodesOf(p: Pipeline): seq<Node> {
    if p == [] then [] else NodesOf(p[..|p| - 1]) + NodesOfSteps(p[|p| - 1].steps)
  }

  /** The steps of the workflow called `name`; a later declaration shadows an earlier one. */
  function StepsNamed(p: Pipeline, name: Id): seq<Step> {
    if p == [] then []
    else if p[|p| - 1].name == name then p[|p| - 1].steps
    else StepsNamed(p[..|p| - 1], name)
  }

  /** The exits of every workflow in `needs`, in order. */
  function ExitsNeeded(p: Pipeline, needs: seq<Id>): seq<Id> {
    if needs == [] then []
    else ExitsNeeded(p, needs[..|needs| - 1]) + Exits(StepsNamed(p, needs[|needs| - 1]))
  }

  /** What lowering the first workflows `ws` of `p` appends to the needs of step `id`. */
  function Added(p: Pipeline, ws: seq<Workflow>, id: Id): seq<Id> {
    if ws == [] then []
    else
      var w := ws[|ws| - 1];
      Added(p, ws[..|ws| - 1], id) + if id in Entries(w.steps) then ExitsNeeded(p, w.needs) else []
  }

  /** The lowered plan, node by node. */
  function Lowered(p: Pipeline): seq<Node> {
    var nodes := NodesOf(p);
    seq(|nodes|, i requires 0 <= i < |nodes| => nodes[i].(needs := nodes[i].needs + Added(p, p, nodes[i].id)))
  }

  /** The nodes called one of `ids` gained `extra`, in order, and nothing else changed. */
  predicate Grown(before: seq<Node>, now: seq<Node>, ids: seq<Id>, extra: seq<Id>) {
    |now| == |before| &&
    forall i :: 0 <= i < |now| ==>
      now[i] == Node(before[i].id, before[i].needs + if before[i].id in ids then extra else [])
  }

  predicate NodeIdsDistinct(nodes: seq<Node>) {
    forall i, j :: 0 <= i < j < |nodes| ==> nodes[i].id != nodes[j].id
  }

  function NodeIds(nodes: seq<Node>): set<Id> {
    set n | n in nodes :: n.id
  }

  predicate IsNodeOf(p: Pipeline, n: Node) {
    exists w, s :: w in p && s in w.steps && n == Node(s.id, s.needs)
  }

  lemma NodesOfStepsMembers(steps: seq<Step>)
    ensures forall n :: n in NodesOfSteps(steps) <==> exists s :: s in steps && n == Node(s.id, s.needs)
  {
    var mine := NodesOfSteps(steps);
    forall s | s in steps ensures Node(s.id, s.needs) in mine {
      var i :| 0 <= i < |steps| && steps[i] == s;
      assert mine[i] == Node(s.id, s.needs);
    }
  }

  lemma {:induction false} NodesOfMembers(p: Pipeline)
    ensures forall n :: n in NodesOf(p) <==> IsNodeOf(p, n)
  {
    if p != [] {
      var k := |p| - 1;
      NodesOfMembers(p[..k]);
      NodesOfStepsMembers(p[k].steps);
      assert p == p[..k] + [p[k]];
      forall n ensures IsNodeOf(p, n) <==> IsNodeOf(p[..k], n) || n in NodesOfSteps(p[k].steps) {
        if IsNodeOf(p, n) {
          var w, s :| w in p && s in w.steps && n == Node(s.id, s.needs);
          assert w in p[..k] || w == p[k];
        }
      }
    }
  }

  lemma {:induction false} NodesOfDistinct(p: Pipeline)
    requires StepsDistinct(p)
    ensures NodeIdsDistinct(NodesOf(p))
  {
    if p != [] {
      var k := |p| - 1;
      var front, mine := NodesOf(p[..k]), NodesOfSteps(p[k].steps);
      NodesOfDistinct(p[..k]);
      NodesOfMembers(p[..k]);
      forall n, m | n in front && m in mine ensures n.id != m.id {
        var w, s :| w in p[..k] && s in w.steps && n == Node(s.id, s.needs);
        var i :| 0 <= i < k && p[i] == w;
        assert n.id in StepIds(p[i].steps) && m.id in StepIds(p[k].steps);
      }
      var all := front + mine;
      forall i, j | 0 <= i < j < |all| ensures all[i].id != all[j].id {
        if i < |front| <= j { assert all[i] in front && all[j] in mine; }
      }
    }
  }

  lemma StepIdsAreNodeIds(p: Pipeline, w: Workflow, id: Id)
    requires w in p && id in StepIds(w.steps)
    ensures id in NodeIds(NodesOf(p))
  {
    NodesOfMembers(p);
    var s :| s in w.steps && s.id == id;
    assert IsNodeOf(p, Node(s.id, s.needs));
  }

  /** One position of the node list; the map of pointers the source builds, seen as an index. */
  method NodeIndex(nodes: seq<Node>) returns (at: map<Id, nat>)
    ensures forall id :: id in at <==> id in NodeIds(nodes)
    ensures forall id :: id in at ==> at[id] < |nodes| && nodes[at[id]].id == id
  {
    at := map[];
    for i := 0 to |nodes|
      invariant forall id :: id in at <==> id in NodeIds(nodes[..i])
      invariant forall id :: id in at ==> at[id] < i && nodes[at[id]].id == id
    {
      at := at[nodes[i].id := i];
      assert nodes[..i + 1] == nodes[..i] + [nodes[i]];
    }
    assert nodes[..|nodes|] == nodes;
  }

  predicate Indexes(at: map<Id, nat>, nodes: seq<Node>) {
    forall id :: id in at ==> at[id] < |nodes| && nodes[at[id]].id == id
  }

  /** Growing leaves every node where and what it was. */
  lemma GrownKeepsIds(a: seq<Node>, b: seq<Node>, ids: seq<Id>, extra: seq<Id>, at: map<Id, nat>)
    requires Grown(a, b, ids, extra)
    ensures NodeIdsDistinct(a) ==> NodeIdsDistinct(b)
    ensures Indexes(at, a) ==> Indexes(at, b)
  {
  }

  lemma GrownTwice(a: seq<Node>, b: seq<Node>, c: seq<Node>, ids: seq<Id>, x: seq<Id>, y: seq<Id>)
    requires Grown(a, b, ids, x) && Grown(b, c, ids, y)
    ensures Grown(a, c, ids, x + y)
  {
    forall i | 0 <= i < |c|
      ensures c[i] == Node(a[i].id, a[i].needs + if a[i].id in ids then x + y else [])
    {
      assert b[i].id == a[i].id && c[i].id == b[i].id;
      assert a[i].needs + x + y == a[i].needs + (x + y);
    }
  }

  lemma GrownNothing(a: seq<Node>, ids: seq<Id>)
    ensures Grown(a, a, ids, []) && forall x :: Grown(a, a, [], x)
  {
    assert forall i :: 0 <= i < |a| ==> a[i].needs + [] == a[i].needs;
  }

  /** One more id of a duplicate-free list is served. */
  lemma GrownOneMore(a: seq<Node>, b: seq<Node>, c: seq<Node>, ids: seq<Id>, j: nat, k: nat, exit: Id)
    requires j < |ids| && Distinct(ids) && Grown(a, b, ids[..j], [exit]) && NodeIdsDistinct(a)
    requires k < |b| && a[k].id == ids[j] && c == b[k := Node(b[k].id, b[k].needs + [exit])]
    ensures Grown(a, c, ids[..j + 1], [exit])
  {
    assert ids[..j + 1] == ids[..j] + [ids[j]];
    forall i | 0 <= i < |c|
      ensures c[i] == Node(a[i].id, a[i].needs + if a[i].id in ids[..j + 1] then [exit] else [])
    {
      assert i != k ==> a[i].id != ids[j];
    }
  }

  /** Appends `exit` to the needs of every entry, the innermost loop. */
  method AppendToEntries(pl: Plan, at: map<Id, nat>, entries: seq<Id>, exit: Id)
    requires Distinct(entries) && NodeIdsDistinct(pl.nodes) && Indexes(at, pl.nodes)
    requires forall id :: id in entries ==> id in at
    modifies pl
    ensures Grown(old(pl.nodes), pl.nodes, entries, [exit])
  {
    ghost var before := pl.nodes;
    GrownNothing(before, []);
    for j := 0 to |entries|
      invariant Grown(before, pl.nodes, entries[..j], [exit])
    {
      var k := at[entries[j]];
      ghost var here := pl.nodes;
      var n := pl.nodes[k];
      pl.nodes := pl.nodes[k := Node(n.id, n.needs + [exit])];
      GrownOneMore(before, here, pl.nodes, entries, j, k, exit);
    }
    assert entries[..|entries|] == entries;
  }

  /** The resolved steps behind each workflow name. */
  method ByName(p: Pipeline) returns (byName: map<Id, seq<Step>>)
    ensures byName.Keys == Names(p)
    ensures forall n :: (if n in byName then byName[n] else []) == StepsNamed(p, n)
  {
    byName := map[];
    for k := 0 to |p|
      invariant byName.Keys == Names(p[..k])
      invariant forall n :: (if n in byName then byName[n] else []) == StepsNamed(p[..k], n)
    {
      assert p[..k + 1] == p[..k] + [p[k]];
      assert p[..k + 1][..k] == p[..k];
      byName := byName[p[k].name := p[k].steps];
    }
    assert p[..|p|] == p;
  }

  /** Appends every exit in turn to every entry: the barrier for one needed workflow. */
  method AppendExits(pl: Plan, at: map<Id, nat>, entries: seq<Id>, exits: seq<Id>)
    requires Distinct(entries) && NodeIdsDistinct(pl.nodes) && Indexes(at, pl.nodes)
    requires forall id :: id in entries ==> id in at
    modifies pl
    ensures Grown(old(pl.nodes), pl.nodes, entries, exits)
  {
    ghost var before := pl.nodes;
    GrownNothing(before, entries);
    for x := 0 to |exits|
      invariant Grown(before, pl.nodes, entries, exits[..x])
    {
      ghost var here := pl.nodes;
      GrownKeepsIds(before, here, entries, exits[..x], at);
      AppendToEntries(pl, at, entries, exits[x]);
      GrownTwice(before, here, pl.nodes, entries, exits[..x], [exits[x]]);
      assert exits[..x + 1] == exits[..x] + [exits[x]];
    }
    assert exits[..|exits|] == exits;
  }

  lemma ExitsNeededOneMore(p: Pipeline, needs: seq<Id>, m: nat)
    requires m < |needs|
    ensures ExitsNeeded(p, needs[..m + 1]) == ExitsNeeded(p, needs[..m]) + Exits(StepsNamed(p, needs[m]))
  {
    assert needs[..m + 1][..m] == needs[..m];
  }

  /** The loop over what one workflow needs. */
  method AppendNeeds(pl: Plan, at: map<Id, nat>, byName: map<Id, seq<Step>>, p: Pipeline, entries: seq<Id>, needs: seq<Id>)
    requires Distinct(entries) && NodeIdsDistinct(pl.nodes) && Indexes(at, pl.nodes)
    requires forall id :: id in entries ==> id in at
    requires forall n :: (if n in byName then byName[n] else []) == StepsNamed(p, n)
    modifies pl
    ensures Grown(old(pl.nodes), pl.nodes, entries, ExitsNeeded(p, needs))
  {
    ghost var before := pl.nodes;
    GrownNothing(before, entries);
    for m := 0 to |needs|
      invariant Grown(before, pl.nodes, entries, ExitsNeeded(p, needs[..m]))
    {
      var exits := ExitSteps(if needs[m] in byName then byName[needs[m]] else []);
      ghost var here := pl.nodes;
      GrownKeepsIds(before, here, entries, ExitsNeeded(p, needs[..m]), at);
      AppendExits(pl, at, entries, exits);
      GrownTwice(before, here, pl.nodes, entries, ExitsNeeded(p, needs[..m]), exits);
      ExitsNeededOneMore(p, needs, m);
    }
    assert needs[..|needs|] == needs;
  }

  /** Lowers one workflow's Needs. */
  method LowerWorkflow(pl: Plan, at: map<Id, nat>, byName: map<Id, seq<Step>>, p: Pipeline, w: Workflow)
    requires NodeIdsDistinct(pl.nodes) && Indexes(at, pl.nodes) && Placed(at, w)
    requires forall n :: (if n in byName then byName[n] else []) == StepsNamed(p, n)
    modifies pl
    ensures Grown(old(pl.nodes), pl.nodes, Entries(w.steps), ExitsNeeded(p, w.needs))
  {
    GrownNothing(pl.nodes, Entries(w.steps));
    if |w.needs| == 0 { return; }
    var entries := EntrySteps(w.steps);
    if |entries| == 0 { return; }
    EntriesAreUsable(w.steps);
    AppendNeeds(pl, at, byName, p, entries, w.needs);
  }

  lemma EntriesAreUsable(steps: seq<Step>)
    requires IdsDistinct(steps)
    ensures Distinct(Entries(steps)) && forall id :: id in Entries(steps) ==> id in StepIds(steps)
  {
    EntriesOfMembers(StepIds(steps), steps);
    EntriesOfDistinct(StepIds(steps), steps);
    forall id | id in Entries(steps) ensures id in StepIds(steps) {
      assert NamesEntry(StepIds(steps), steps, id);
    }
  }

  /** The nodes after the first k workflows are lowered. */
  predicate LoweredTo(p: Pipeline, k: nat, start: seq<Node>, now: seq<Node>)
    requires k <= |p|
  {
    |now| == |start| &&
    forall i :: 0 <= i < |now| ==> now[i] == Node(start[i].id, start[i].needs + Added(p, p[..k], start[i].id))
  }

  lemma AddedOneMore(p: Pipeline, k: nat, id: Id)
    requires k < |p|
    ensures Added(p, p[..k + 1], id) ==
            Added(p, p[..k], id) + if id in Entries(p[k].steps) then ExitsNeeded(p, p[k].needs) else []
  {
    assert p[..k + 1][..k] == p[..k];
  }

  /** Needs appended in two goes, seen as appended in one. */
  lemma AppendedTwice(a: Node, b: Node, c: Node, x: seq<Id>, y: seq<Id>, z: seq<Id>)
    requires b == Node(a.id, a.needs + x) && c == Node(b.id, b.needs + y) && z == x + y
    ensures c == Node(a.id, a.needs + z)
  {
    assert a.needs + x + y == a.needs + (x + y);
  }

  lemma LoweredOneMore(p: Pipeline, k: nat, start: seq<Node>, here: seq<Node>, now: seq<Node>)
    requires k < |p| && LoweredTo(p, k, start, here)
    requires Grown(here, now, Entries(p[k].steps), ExitsNeeded(p, p[k].needs))
    ensures LoweredTo(p, k + 1, start, now)
  {
    forall i | 0 <= i < |now| ensures now[i] == Node(start[i].id, start[i].needs + Added(p, p[..k + 1], start[i].id)) {
      var id := start[i].id;
      var extra := if id in Entries(p[k].steps) then ExitsNeeded(p, p[k].needs) else [];
      AddedOneMore(p, k, id);
      AppendedTwice(start[i], here[i], now[i], Added(p, p[..k], id), extra, Added(p, p[..k + 1], id));
    }
  }

  /** Every step of w has its node, and w declares no step twice. */
  ghost predicate Placed(at: map<Id, nat>, w: Workflow) {
    IdsDistinct(w.steps) && forall id :: id in StepIds(w.steps) ==> id in at
  }

  lemma AllPlaced(p: Pipeline, at: map<Id, nat>, k: nat)
    requires StepsDistinct(p) && k < |p| && forall id :: id in at <==> id in NodeIds(NodesOf(p))
    ensures Placed(at, p[k])
  {
    forall id | id in StepIds(p[k].steps) ensures id in at { StepIdsAreNodeIds(p, p[k], id); }
  }

  /** The loop over the workflows, once names and positions are indexed. */
  method LowerEach(pl: Plan, p: Pipeline, at: map<Id, nat>, byName: map<Id, seq<Step>>)
    requires NodeIdsDistinct(pl.nodes) && Indexes(at, pl.nodes)
    requires forall k :: 0 <= k < |p| ==> Placed(at, p[k])
    requires forall n :: (if n in byName then byName[n] else []) == StepsNamed(p, n)
    modifies pl
    ensures LoweredTo(p, |p|, old(pl.nodes), pl.nodes)
  {
    ghost var start := pl.nodes;
    NothingLowered(p, start);
    for k := 0 to |p|
      invariant LoweredTo(p, k, start, pl.nodes)
    {
      ghost var here := pl.nodes;
      LoweredKeepsIds(p, k, start, here, at);
      LowerWorkflow(pl, at, byName, p, p[k]);
      LoweredOneMore(p, k, start, here, pl.nodes);
    }
  }

  lemma NothingLowered(p: Pipeline, start: seq<Node>)
    ensures LoweredTo(p, 0, start, start)
  {
    assert p[..0] == [];
    forall i | 0 <= i < |start| ensures start[i].needs + Added(p, p[..0], start[i].id) == start[i].needs {}
  }

  method LowerWorkflowNeeds(pl: Plan, p: Pipeline)
    requires StepsDistinct(p) && pl.nodes == NodesOf(p)
    modifies pl
    ensures pl.nodes == Lowered(p)
  {
    NodesOfDistinct(p);
    var byName := ByName(p);
    var at := NodeIndex(pl.nodes);
    forall k | 0 <= k < |p| ensures Placed(at, p[k]) { AllPlaced(p, at, k); }
    LowerEach(pl, p, at, byName);
    assert p[..|p|] == p;
  }

  lemma LoweredKeepsIds(p: Pipeline, k: nat, start: seq<Node>, now: seq<Node>, at: map<Id, nat>)
    requires k <= |p| && LoweredTo(p, k, start, now) && NodeIdsDistinct(start) && Indexes(at, start)
    ensures NodeIdsDistinct(now) && Indexes(at, now)
  {
  }
}
