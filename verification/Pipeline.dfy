/**
 A pipeline as Build sees it once expansions are resolved: workflows in declaration order, each with
 its own steps, plus the graphs the lowering is judged by.
 */
module Pipelines {
  import opened Graphs

  datatype Step = Step(id: Id, needs: seq<Id>)
  datatype Workflow = Workflow(name: Id, needs: seq<Id>, steps: seq<Step>)
  type Pipeline = seq<Workflow>

  predicate Distinct(s: seq<Id>) {
    forall i, j :: 0 <= i < j < |s| ==> s[i] != s[j]
  }

  function StepIds(steps: seq<Step>): set<Id> {
    set s | s in steps :: s.id
  }

  function Names(p: Pipeline): set<Id> {
    set w | w in p :: w.name
  }

  // ----- what the name checks establish -----

  predicate NamesNonEmpty(p: Pipeline) {
    forall i :: 0 <= i < |p| ==> p[i].name != ""
  }

  predicate NamesDistinct(p: Pipeline) {
    forall i, j :: 0 <= i < j < |p| ==> p[i].name != p[j].name
  }

  /** No id is declared twice, neither inside one workflow nor in two of them. */
  predicate StepsDistinct(p: Pipeline) {
    && (forall i :: 0 <= i < |p| ==> IdsDistinct(p[i].steps))
    && (forall i, j, id :: 0 <= i < |p| && 0 <= j < |p| && id in StepIds(p[i].steps) && id in StepIds(p[j].steps) ==> i == j)
  }

  predicate IdsDistinct(steps: seq<Step>) {
    forall i, j :: 0 <= i < j < |steps| ==> steps[i].id != steps[j].id
  }

  predicate NeedsDeclared(p: Pipeline) {
    forall w, n :: w in p && n in w.needs ==> n in Names(p)
  }

  /** What Build asks of the workflow layer, short of it having no cycle. */
  predicate Accepted(p: Pipeline) {
    NamesNonEmpty(p) && NamesDistinct(p) && StepsDistinct(p) && NeedsDeclared(p)
  }

  // ----- graphs -----

  /** Workflow w needs workflow n. */
  function WorkflowEdges(p: Pipeline): Edges {
    set w, n | w in p && n in w.needs :: (w.name, n)
  }

  /** Every edge a step declares, inside its workflow or across workflows. */
  function StepEdges(p: Pipeline): Edges {
    set w, s, n | w in p && s in w.steps && n in s.needs :: (s.id, n)
  }

  /** The edges that stay inside one workflow's resolved step set. */
  function InternalEdges(steps: seq<Step>): Edges {
    set s, n | s in steps && n in s.needs && n in StepIds(steps) :: (s.id, n)
  }

  /**
   The meaning of a workflow-level Needs: every step of the dependent workflow waits for every step of
   the workflow it needs. This is the |A| x |B| reading the lowering avoids materialising.
   */
  function FullBarrier(p: Pipeline): Edges {
    set w, v, a, b | w in p && v in p && v.name in w.needs && a in w.steps && b in v.steps :: (a.id, b.id)
  }

  ghost predicate InternallyAcyclic(p: Pipeline) {
    forall w :: w in p ==> Acyclic(InternalEdges(w.steps))
  }

  lemma SameName(p: Pipeline, w: Workflow, v: Workflow)
    requires NamesDistinct(p) && w in p && v in p && w.name == v.name
    ensures w == v
  {
  }

  lemma SameStep(p: Pipeline, w: Workflow, v: Workflow, id: Id)
    requires StepsDistinct(p) && w in p && v in p
    requires id in StepIds(w.steps) && id in StepIds(v.steps)
    ensures w == v
  {
    var i :| 0 <= i < |p| && p[i] == w;
    var j :| 0 <= j < |p| && p[j] == v;
    assert id in StepIds(p[i].steps) && id in StepIds(p[j].steps);
  }
}
