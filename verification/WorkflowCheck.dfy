/**
 The checks Build runs on the workflow layer before lowering it: checkWorkflowNames,
 checkWorkflowNeeds and the three-colour depth-first search behind it.
 */
module WorkflowChecks {
  import opened Wrappers
  import opened Graphs
  import opened Pipelines

  datatype BuildError =
    | EmptyName
    | DuplicateWorkflow(name: Id)
    | DuplicateStep(id: Id)
    | NeedsItself(name: Id)
    | UnknownNeed(name: Id, need: Id)
    | Cycle(path: seq<Id>)

  // ----- names -----

  /** The ids the first k workflows declare. */
  function IdsBefore(p: Pipeline, k: nat): set<Id>
    requires k <= |p|
  {
    set i, id | 0 <= i < k && id in StepIds(p[i].steps) :: id
  }

  /** The inner loop: claims every step id of one workflow, or finds one already claimed. */
  method ClaimSteps(steps: seq<Step>, name: Id, owner: map<Id, Id>) returns (owner': map<Id, Id>, twice: Option<Id>)
    ensures twice.None? <==> IdsDistinct(steps) && StepIds(steps) !! owner.Keys
    ensures twice.None? ==> owner'.Keys == owner.Keys + StepIds(steps)
  {
    owner' := owner;
    for j := 0 to |steps|
      invariant owner'.Keys == owner.Keys + StepIds(steps[..j])
      invariant IdsDistinct(steps[..j]) && StepIds(steps[..j]) !! owner.Keys
    {
      var id := steps[j].id;
      assert steps[..j + 1] == steps[..j] + [steps[j]];
      if id in owner' {
        assert steps[j] in steps && id in StepIds(steps);
        if id !in owner {
          var s :| s in steps[..j] && s.id == id;
          var i :| 0 <= i < j && steps[i] == s;
          assert steps[i].id == steps[j].id;
        }
        return owner', Some(id);
      }
      owner' := owner'[id := name];
    }
    assert steps[..|steps|] == steps;
    twice := None;
  }

  lemma StepsDistinctPrefix(p: Pipeline, k: nat)
    requires k < |p|
    ensures StepsDistinct(p[..k + 1]) <==>
            StepsDistinct(p[..k]) && IdsDistinct(p[k].steps) && StepIds(p[k].steps) !! IdsBefore(p, k)
  {
    assert forall i :: 0 <= i < k ==> p[..k + 1][i] == p[i] && p[..k][i] == p[i];
    assert p[..k + 1][k] == p[k];
  }

  lemma StepsDistinctMonotone(p: Pipeline, k: nat)
    requires k <= |p|
    ensures StepsDistinct(p) ==> StepsDistinct(p[..k])
  {
    assert forall i :: 0 <= i < k ==> p[..k][i] == p[i];
  }

  /** Refuses an empty or repeated workflow name and a step id declared twice anywhere. */
  method CheckWorkflowNames(p: Pipeline) returns (err: Option<BuildError>)
    ensures err.None? <==> NamesNonEmpty(p) && NamesDistinct(p) && StepsDistinct(p)
  {
    var seen: set<Id> := {};
    var owner: map<Id, Id> := map[];
    for k := 0 to |p|
      invariant seen == Names(p[..k]) && owner.Keys == IdsBefore(p, k)
      invariant NamesNonEmpty(p[..k]) && NamesDistinct(p[..k]) && StepsDistinct(p[..k])
    {
      var w := p[k];
      assert p[..k + 1] == p[..k] + [w];
      if w.name == "" {
        assert p[k].name == "";
        return Some(EmptyName);
      }
      if w.name in seen {
        var v :| v in p[..k] && v.name == w.name;
        var i :| 0 <= i < k && p[i] == v;
        assert p[i].name == p[k].name;
        return Some(DuplicateWorkflow(w.name));
      }
      seen := seen + {w.name};
      StepsDistinctPrefix(p, k);
      var claimed, twice := ClaimSteps(w.steps, w.name, owner);
      if twice.Some? {
        StepsDistinctMonotone(p, k + 1);
        return Some(DuplicateStep(twice.value));
      }
      owner := claimed;
    }
    assert p[..|p|] == p;
    err := None;
  }

  // ----- the colour search -----

  datatype Colour = White | Grey | Black

  predicate Closed(needs: map<Id, seq<Id>>) {
    forall n, m :: n in needs && m in needs[n] ==> m in needs
  }

  /** The grey names are the path from the root, and the black ones are topologically ordered. */
  ghost predicate Sound(needs: map<Id, seq<Id>>, colour: map<Id, Colour>, path: seq<Id>, finished: seq<Id>) {
    && colour.Keys <= needs.Keys
    && (forall n :: n in colour && colour[n] == Grey <==> n in path)
    && (forall n :: n in colour && colour[n] == Black <==> n in finished)
    && (forall n :: n in colour ==> colour[n] != White)
    && Distinct(path) && Distinct(finished)
    && IsWalk(NeedEdges(needs), path)
    && Topological(NeedEdges(needs), finished)
  }

  lemma EnterSound(needs: map<Id, seq<Id>>, colour: map<Id, Colour>, path: seq<Id>, finished: seq<Id>, name: Id)
    requires Sound(needs, colour, path, finished) && name in needs && name !in colour
    requires path != [] ==> (path[|path| - 1], name) in NeedEdges(needs)
    ensures Sound(needs, colour[name := Grey], path + [name], finished)
  {
  }

  lemma FinishedExtends(needs: map<Id, seq<Id>>, finished: seq<Id>, name: Id)
    requires Topological(NeedEdges(needs), finished) && Distinct(finished) && name !in finished
    requires name in needs && forall m :: m in needs[name] ==> m in finished
    ensures Topological(NeedEdges(needs), finished + [name]) && Distinct(finished + [name])
  {
    var order := finished + [name];
    forall e, i | e in NeedEdges(needs) && 0 <= i < |order| && order[i] == e.0 ensures e.1 in order[..i] {
      if i < |finished| {
        assert order[..i] == finished[..i];
        assert e.1 in finished[..i];
      } else {
        assert order[..i] == finished;
      }
    }
  }

  lemma LeaveSound(needs: map<Id, seq<Id>>, colour: map<Id, Colour>, path: seq<Id>, finished: seq<Id>, name: Id)
    requires Sound(needs, colour, path + [name], finished) && name in needs
    requires forall m :: m in needs[name] ==> m in finished
    ensures Sound(needs, colour[name := Black], path, finished + [name])
  {
    var long := path + [name];
    assert long[|path|] == name && name in long;
    assert forall i :: 0 <= i < |path| ==> long[i] == path[i];
    assert name !in path;
    FinishedExtends(needs, finished, name);
  }

  class CycleSearch {
    const needs: map<Id, seq<Id>>
    var colour: map<Id, Colour>  // a name not in the map is white
    var path: seq<Id>
    ghost var finished: seq<Id>  // black names in the order they turned black

    constructor (needs: map<Id, seq<Id>>)
      requires Closed(needs)
      ensures this.needs == needs && Valid() && path == [] && finished == []
    {
      this.needs := needs;
      colour, path, finished := map[], [], [];
    }

    ghost predicate Valid()
      reads this
    {
      Closed(needs) && Sound(needs, colour, path, finished)
    }

    /** The names from the first occurrence of `name` on the path, closed into a cycle. */
    method CloseCycle(name: Id) returns (cycle: seq<Id>)
      requires Valid() && name in path && (path[|path| - 1], name) in NeedEdges(needs)
      ensures IsCycle(NeedEdges(needs), cycle)
    {
      var from := 0;
      while path[from] != name
        invariant 0 <= from < |path| && name in path[from..]
        decreases |path| - from
      {
        from := from + 1;
      }
      cycle := path[from..] + [name];
      forall i | 0 < i < |cycle| ensures (cycle[i - 1], cycle[i]) in NeedEdges(needs) {
        if i < |cycle| - 1 {
          assert cycle[i - 1] == path[from + i - 1] && cycle[i] == path[from + i];
        }
      }
    }

    method Visit(name: Id) returns (cycle: Option<seq<Id>>)
      requires Valid() && name in needs
      requires path != [] ==> (path[|path| - 1], name) in NeedEdges(needs)
      modifies this
      ensures cycle.Some? ==> IsCycle(NeedEdges(needs), cycle.value)
      ensures cycle.None? ==> Valid() && path == old(path) && name in finished && old(finished) <= finished
      ensures old(colour.Keys) <= colour.Keys
      decreases needs.Keys - colour.Keys, 0
    {
      if name in colour && colour[name] == Black {
        return None;
      }
      if name in colour && colour[name] == Grey {
        var closed := CloseCycle(name);
        return Some(closed);
      }
      Enter(name);
      cycle := VisitNeeds(name);
      if cycle.Some? { return; }
      Leave(name);
    }

    /** Turns a white name grey and puts it on the path. */
    method Enter(name: Id)
      requires Valid() && name in needs && name !in colour
      requires path != [] ==> (path[|path| - 1], name) in NeedEdges(needs)
      modifies this
      ensures Valid() && path == old(path) + [name] && finished == old(finished)
      ensures colour.Keys == old(colour.Keys) + {name}
    {
      EnterSound(needs, colour, path, finished, name);
      colour := colour[name := Grey];
      path := path + [name];
    }

    /** Takes a name whose needs are all black off the path and turns it black. */
    method Leave(name: Id)
      requires Valid() && name in needs && path != [] && path[|path| - 1] == name
      requires forall m :: m in needs[name] ==> m in finished
      modifies this
      ensures Valid() && path == old(path)[..|old(path)| - 1] && finished == old(finished) + [name]
      ensures colour.Keys == old(colour.Keys) + {name}
    {
      ghost var rest := path[..|path| - 1];
      assert path == rest + [name];
      LeaveSound(needs, colour, rest, finished, name);
      path := path[..|path| - 1];
      colour := colour[name := Black];
      finished := finished + [name];
    }

    /** The loop of Visit over what the name just pushed needs. */
    method VisitNeeds(name: Id) returns (cycle: Option<seq<Id>>)
      requires Valid() && name in needs && path != [] && path[|path| - 1] == name
      modifies this
      ensures cycle.Some? ==> IsCycle(NeedEdges(needs), cycle.value)
      ensures cycle.None? ==> Valid() && path == old(path) && old(finished) <= finished
      ensures cycle.None? ==> forall m :: m in needs[name] ==> m in finished
      ensures old(colour.Keys) <= colour.Keys
      decreases needs.Keys - colour.Keys, 1
    {
      var mine := needs[name];
      for i := 0 to |mine|
        invariant Valid() && path == old(path) && old(finished) <= finished
        invariant old(colour.Keys) <= colour.Keys
        invariant forall m :: m in mine[..i] ==> m in finished
      {
        assert (name, mine[i]) in NeedEdges(needs);
        ghost var before := finished;
        cycle := Visit(mine[i]);
        if cycle.Some? { return; }
        assert forall m :: m in before ==> m in finished;
        assert mine[..i + 1] == mine[..i] + [mine[i]];
      }
      cycle := None;
    }
  }

  /** The search over every workflow, in declaration order. */
  method FindCycle(needs: map<Id, seq<Id>>, names: seq<Id>) returns (cycle: Option<seq<Id>>)
    requires Closed(needs)
    requires forall n :: n in names <==> n in needs
    ensures cycle.None? <==> Acyclic(NeedEdges(needs))
    ensures cycle.Some? ==> IsCycle(NeedEdges(needs), cycle.value)
  {
    var search := new CycleSearch(needs);
    for k := 0 to |names|
      invariant search.Valid() && search.path == [] && search.needs == needs
      invariant forall j :: 0 <= j < k ==> names[j] in search.finished
    {
      cycle := search.Visit(names[k]);
      if cycle.Some? {
        CycleRefutesAcyclic(NeedEdges(needs), cycle.value);
        return;
      }
    }
    TopologicalAcyclic(NeedEdges(needs), search.finished);
    cycle := None;
  }

  // ----- checkWorkflowNeeds -----

  lemma NeedEdgesAreWorkflowEdges(p: Pipeline, needs: map<Id, seq<Id>>)
    requires NamesDistinct(p)
    requires needs.Keys == Names(p) && forall w :: w in p ==> needs[w.name] == w.needs
    ensures NeedEdges(needs) == WorkflowEdges(p)
  {
    forall e | e in NeedEdges(needs) ensures e in WorkflowEdges(p) {
      var w :| w in p && w.name == e.0;
    }
  }

  /** Accepts exactly the pipelines whose workflow needs are all declared and acyclic. */
  method CheckWorkflowNeeds(p: Pipeline) returns (err: Option<BuildError>)
    requires NamesDistinct(p)
    ensures err.None? <==> NeedsDeclared(p) && Acyclic(WorkflowEdges(p))
    ensures err.Some? && err.value.Cycle? ==> IsCycle(WorkflowEdges(p), err.value.path)
    ensures err.Some? && err.value.UnknownNeed? ==> err.value.need !in Names(p)
  {
    var byName: map<Id, seq<Id>> := map[];
    var names: seq<Id> := [];
    for k := 0 to |p|
      invariant byName.Keys == Names(p[..k])
      invariant forall i :: 0 <= i < k ==> p[i].name in byName && byName[p[i].name] == p[i].needs
      invariant forall n :: n in names <==> n in byName
    {
      assert p[..k + 1] == p[..k] + [p[k]];
      byName := byName[p[k].name := p[k].needs];
      names := names + [p[k].name];
    }
    assert p[..|p|] == p;
    for k := 0 to |p|
      invariant forall i, n :: 0 <= i < k && n in p[i].needs ==> n in byName
    {
      var w := p[k];
      for j := 0 to |w.needs|
        invariant forall i :: 0 <= i < j ==> w.needs[i] in byName
      {
        var need := w.needs[j];
        if need == w.name {
          assert w in p && need in w.needs;
          assert (w.name, w.name) in WorkflowEdges(p);
          EdgeReaches(WorkflowEdges(p), w.name, w.name);
          return Some(NeedsItself(w.name));
        }
        if need !in byName {
          assert w in p && need in w.needs;
          return Some(UnknownNeed(w.name, need));
        }
      }
    }
    NeedEdgesAreWorkflowEdges(p, byName);
    forall n, m | n in byName && m in byName[n] ensures m in byName {
      var w :| w in p && w.name == n;
    }
    var cycle := FindCycle(byName, names);
    if cycle.Some? {
      return Some(Cycle(cycle.value));
    }
    err := None;
  }
}
