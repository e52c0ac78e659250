/**
 Per-unit pairing of expansions: NeedsEach lowered to ordinary step edges by lowerNeedsEach and pairEach.
 */
module PerUnitPairing {
  import opened Wrappers
  import opened Graphs
  import opened Pipelines

  /** One materialised child of an expansion. Only its needs are updated after it is resolved. */
  class StepBuilder {
    const id: Id
    const units: seq<Id>
    var needs: seq<Id>

    constructor (id: Id, units: seq<Id>, needs: seq<Id>)
      ensures this.id == id && this.units == units && this.needs == needs
    {
      this.id, this.units, this.needs := id, units, needs;
    }
  }

  // ----- the rule, over the immutable parts of the upstream children -----

  datatype Child = Child(id: Id, units: seq<Id>)

  function View(bs: seq<StepBuilder>): seq<Child> {
    seq(|bs|, i requires 0 <= i < |bs| => Child(bs[i].id, bs[i].units))
  }

  function Ids(ups: seq<Child>): seq<Id> {
    seq(|ups|, i requires 0 <= i < |ups| => ups[i].id)
  }

  predicate Covered(ups: seq<Child>, u: Id) {
    exists up :: up in ups && u in up.units
  }

  predicate SharesUnit(units: seq<Id>, up: Child) {
    exists u :: u in units && u in up.units
  }

  function Occurrences(units: seq<Id>, u: Id, id: Id): seq<Id> {
    if units == [] then []
    else Occurrences(units[..|units| - 1], u, id) + if units[|units| - 1] == u then [id] else []
  }

  /** The ids of the upstream children covering unit u, in resolve order. */
  function Owners(ups: seq<Child>, u: Id): seq<Id> {
    if ups == [] then []
    else
      var up := ups[|ups| - 1];
      Owners(ups[..|ups| - 1], u) + Occurrences(up.units, u, up.id)
  }

  /** Appends the ids not yet listed, keeping their order. */
  function Merge(acc: seq<Id>, ids: seq<Id>): seq<Id> {
    if ids == [] then acc
    else
      var front := Merge(acc, ids[..|ids| - 1]);
      if ids[|ids| - 1] in front then front else front + [ids[|ids| - 1]]
  }

  function Matched(units: seq<Id>, ups: seq<Child>): seq<Id> {
    if units == [] then []
    else Merge(Matched(units[..|units| - 1], ups), Owners(ups, units[|units| - 1]))
  }

  predicate AllCovered(units: seq<Id>, ups: seq<Child>) {
    units == [] || (AllCovered(units[..|units| - 1], ups) && Covered(ups, units[|units| - 1]))
  }

  /** In other words, each unit is. */
  lemma {:induction false} AllCoveredEach(units: seq<Id>, ups: seq<Child>)
    ensures AllCovered(units, ups) <==> forall u :: u in units ==> Covered(ups, u)
  {
    if units != [] {
      var k := |units| - 1;
      AllCoveredEach(units[..k], ups);
      assert units == units[..k] + [units[k]];
    }
  }

  /** The edges one downstream child gains. */
  function Paired(units: seq<Id>, ups: seq<Child>): seq<Id> {
    if AllCovered(units, ups) then Matched(units, ups) else Ids(ups)
  }

  lemma {:induction false} OccurrencesMembers(units: seq<Id>, u: Id, id: Id)
    ensures Occurrences(units, u, id) != [] <==> u in units
    ensures forall x :: x in Occurrences(units, u, id) ==> x == id
  {
    if units != [] {
      OccurrencesMembers(units[..|units| - 1], u, id);
      assert units == units[..|units| - 1] + [units[|units| - 1]];
    }
  }

  lemma {:induction false} OwnersMembers(ups: seq<Child>, u: Id)
    ensures forall id :: id in Owners(ups, u) <==> exists up :: up in ups && up.id == id && u in up.units
    ensures Owners(ups, u) != [] <==> Covered(ups, u)
  {
    if ups != [] {
      var k := |ups| - 1;
      var up := ups[k];
      OwnersMembers(ups[..k], u);
      OccurrencesMembers(up.units, u, up.id);
      var own := Occurrences(up.units, u, up.id);
      assert u in up.units ==> own[0] in own;
      assert forall c :: c in ups <==> c in ups[..k] || c == up;
    }
  }

  lemma {:induction false} MergeMembers(acc: seq<Id>, ids: seq<Id>)
    requires Distinct(acc)
    ensures Distinct(Merge(acc, ids)) && acc <= Merge(acc, ids)
    ensures forall id :: id in Merge(acc, ids) <==> id in acc || id in ids
  {
    if ids != [] {
      MergeMembers(acc, ids[..|ids| - 1]);
      assert ids == ids[..|ids| - 1] + [ids[|ids| - 1]];
    }
  }

  lemma {:induction false} MatchedMembers(units: seq<Id>, ups: seq<Child>)
    ensures Distinct(Matched(units, ups))
    ensures forall id :: id in Matched(units, ups) <==> exists up :: up in ups && up.id == id && SharesUnit(units, up)
  {
    if units != [] {
      var k := |units| - 1;
      MatchedMembers(units[..k], ups);
      OwnersMembers(ups, units[k]);
      MergeMembers(Matched(units[..k], ups), Owners(ups, units[k]));
      forall up ensures SharesUnit(units, up) <==> SharesUnit(units[..k], up) || units[k] in up.units {
        assert units[k] in units;
        if u :| u in units && u in up.units { assert u in units[..k] || u == units[k]; }
      }
    }
  }

  /**
   The rule: a child whose units are all covered waits for exactly the upstream children sharing one
   of them, each listed once; any other child waits for all of them. Either way no upstream child that
   covers one of its units is left out.
   */
  lemma PairedExactly(units: seq<Id>, ups: seq<Child>)
    ensures (forall u :: u in units ==> Covered(ups, u)) ==>
              Distinct(Paired(units, ups)) &&
              forall id :: id in Paired(units, ups) <==> exists up :: up in ups && up.id == id && SharesUnit(units, up)
    ensures (exists u :: u in units && !Covered(ups, u)) ==> Paired(units, ups) == Ids(ups)
    ensures forall up :: up in ups && SharesUnit(units, up) ==> up.id in Paired(units, ups)
  {
    MatchedMembers(units, ups);
    AllCoveredEach(units, ups);
    forall up | up in ups ensures up.id in Ids(ups) {
      var i :| 0 <= i < |ups| && ups[i] == up;
      assert Ids(ups)[i] == up.id;
    }
  }

  // ----- the loops -----

  predicate Holds(owner: map<Id, seq<Id>>, u: Id, ids: seq<Id>) {
    if u in owner then owner[u] == ids != [] else ids == []
  }

  /** The owners of u once k children and j units of the next one are recorded. */
  function Sofar(ups: seq<Child>, k: nat, j: nat, u: Id): seq<Id>
    requires k < |ups| && j <= |ups[k].units|
  {
    Owners(ups[..k], u) + Occurrences(ups[k].units[..j], u, ups[k].id)
  }

  lemma SofarSteps(ups: seq<Child>, k: nat, u: Id)
    requires k < |ups|
    ensures Sofar(ups, k, 0, u) == Owners(ups[..k], u)
    ensures Sofar(ups, k, |ups[k].units|, u) == Owners(ups[..k + 1], u)
  {
    assert ups[..k + 1][..k] == ups[..k];
    assert ups[k].units[..|ups[k].units|] == ups[k].units;
  }

  lemma SofarUnit(ups: seq<Child>, k: nat, j: nat, u: Id)
    requires k < |ups| && j < |ups[k].units|
    ensures Sofar(ups, k, j + 1, u) == Sofar(ups, k, j, u) + if ups[k].units[j] == u then [ups[k].id] else []
  {
    assert ups[k].units[..j + 1][..j] == ups[k].units[..j];
  }

  /** Records one upstream child as an owner of each of its units. */
  method AddUnits(owner: map<Id, seq<Id>>, ups: seq<Child>, k: nat) returns (owner': map<Id, seq<Id>>)
    requires k < |ups| && forall u :: Holds(owner, u, Sofar(ups, k, 0, u))
    ensures forall u :: Holds(owner', u, Sofar(ups, k, |ups[k].units|, u))
  {
    var up := ups[k];
    owner' := owner;
    for j := 0 to |up.units|
      invariant forall u :: Holds(owner', u, Sofar(ups, k, j, u))
    {
      var u := up.units[j];
      ghost var before, j' := owner', j + 1;
      owner' := owner'[u := (if u in owner' then owner'[u] else []) + [up.id]];
      forall v ensures Holds(owner', v, Sofar(ups, k, j', v)) {
        assert Holds(before, v, Sofar(ups, k, j, v));
        SofarUnit(ups, k, j, v);
      }
    }
  }

  method OwnersOfUnits(ups: seq<Child>) returns (owner: map<Id, seq<Id>>)
    ensures forall u :: Holds(owner, u, Owners(ups, u))
  {
    owner := map[];
    ghost var front: seq<Child> := [];
    for k := 0 to |ups|
      invariant front == ups[..k]
      invariant forall u :: Holds(owner, u, Owners(front, u))
    {
      forall u ensures Holds(owner, u, Sofar(ups, k, 0, u)) { SofarSteps(ups, k, u); }
      owner := AddUnits(owner, ups, k);
      front := ups[..k + 1];
      forall u ensures Holds(owner, u, Owners(front, u)) {
        assert Holds(owner, u, Sofar(ups, k, |ups[k].units|, u));
        SofarSteps(ups, k, u);
      }
    }
    assert front == ups;
  }

  /** The innermost loop: adds the owners of one unit not matched yet. */
  method MergeInto(acc: seq<Id>, ids: seq<Id>) returns (matched: seq<Id>)
    ensures matched == Merge(acc, ids)
  {
    matched := acc;
    for i := 0 to |ids|
      invariant matched == Merge(acc, ids[..i])
    {
      assert ids[..i + 1][..i] == ids[..i];
      if ids[i] !in matched {
        matched := matched + [ids[i]];
      }
    }
    assert ids[..|ids|] == ids;
  }

  lemma UnitsOneMore(units: seq<Id>, ups: seq<Child>, j: nat)
    requires j < |units|
    ensures Matched(units[..j + 1], ups) == Merge(Matched(units[..j], ups), Owners(ups, units[j]))
    ensures AllCovered(units[..j + 1], ups) <==> AllCovered(units[..j], ups) && Covered(ups, units[j])
    ensures AllCovered(units, ups) ==> Covered(ups, units[j])
  {
    assert units[..j + 1][..j] == units[..j];
    AllCoveredEach(units, ups);
  }

  lemma OwnedIsCovered(ups: seq<Child>, u: Id)
    ensures Owners(ups, u) != [] <==> Covered(ups, u)
  {
    OwnersMembers(ups, u);
  }

  /** What one child is matched with: the units' owners, or everything once a unit has no owner. */
  method MatchChild(units: seq<Id>, owner: map<Id, seq<Id>>, all: seq<Id>, ghost ups: seq<Child>)
    returns (matched: seq<Id>)
    requires forall u :: Holds(owner, u, Owners(ups, u))
    requires all == Ids(ups)
    ensures matched == Paired(units, ups)
  {
    matched := [];
    for j := 0 to |units|
      invariant matched == Matched(units[..j], ups)
      invariant AllCovered(units[..j], ups)
    {
      var u := units[j];
      UnitsOneMore(units, ups, j);
      assert Holds(owner, u, Owners(ups, u));
      OwnedIsCovered(ups, u);
      if u !in owner {
        return all;
      }
      matched := MergeInto(matched, owner[u]);
    }
    assert units[..|units|] == units;
  }

  method PairEach(children: seq<StepBuilder>, upstream: seq<StepBuilder>)
    requires AllDifferent(children)
    modifies children
    ensures forall c :: c in children ==> c.needs == old(c.needs) + Paired(c.units, View(upstream))
  {
    var ups, all := View(upstream), Ids(View(upstream));
    var owner := OwnersOfUnits(ups);
    for k := 0 to |children|
      invariant forall i :: 0 <= i < k ==> children[i].needs == old(children[i].needs) + Paired(children[i].units, ups)
      invariant forall i :: k <= i < |children| ==> children[i].needs == old(children[i].needs)
    {
      var matched := MatchChild(children[k].units, owner, all, ups);
      children[k].needs := children[k].needs + matched;
    }
  }

  // ----- lowerNeedsEach -----

  datatype Expansion = Expansion(id: Id, needsEach: seq<Id>, children: seq<StepBuilder>)

  datatype PairError = NeedsEachItself(id: Id) | UnknownExpansion(id: Id, target: Id) | AmbiguousExpansion(id: Id, target: Id)

  /** The positions of the expansions called `target`, in order. */
  function At(xs: seq<Expansion>, target: Id): seq<nat> {
    if xs == [] then []
    else At(xs[..|xs| - 1], target) + if xs[|xs| - 1].id == target then [|xs| - 1] else []
  }

  lemma {:induction false} AtInRange(xs: seq<Expansion>, target: Id)
    ensures forall i :: i in At(xs, target) <==> 0 <= i < |xs| && xs[i].id == target
  {
    if xs != [] { AtInRange(xs[..|xs| - 1], target); }
  }

  /** NeedsEach names one other expansion, declared exactly once. */
  predicate Pairable(xs: seq<Expansion>, x: Expansion, target: Id) {
    target != x.id && |At(xs, target)| == 1
  }

  predicate TargetsPairable(xs: seq<Expansion>, x: Expansion, ts: seq<Id>) {
    ts == [] || (TargetsPairable(xs, x, ts[..|ts| - 1]) && Pairable(xs, x, ts[|ts| - 1]))
  }

  predicate ExpansionPairable(xs: seq<Expansion>, x: Expansion) {
    TargetsPairable(xs, x, x.needsEach)
  }

  /** In other words, every target it names is. */
  lemma {:induction false} TargetsPairableEach(xs: seq<Expansion>, x: Expansion, ts: seq<Id>)
    ensures TargetsPairable(xs, x, ts) <==> forall i :: 0 <= i < |ts| ==> Pairable(xs, x, ts[i])
  {
    if ts != [] { TargetsPairableEach(xs, x, ts[..|ts| - 1]); }
  }

  predicate AllPairable(xs: seq<Expansion>) {
    forall i :: 0 <= i < |xs| ==> ExpansionPairable(xs, xs[i])
  }

  function UpstreamOf(xs: seq<Expansion>, target: Id): seq<Child> {
    AtInRange(xs, target);
    if |At(xs, target)| == 1 then
      assert At(xs, target)[0] in At(xs, target);
      View(xs[At(xs, target)[0]].children)
    else []
  }

  /** The edges a child with these units gains from a list of NeedsEach targets. */
  function Gains(xs: seq<Expansion>, units: seq<Id>, targets: seq<Id>): seq<Id> {
    if targets == [] then []
    else
      var k := |targets| - 1;
      Gains(xs, units, targets[..k]) + Paired(units, UpstreamOf(xs, targets[k]))
  }

  /** No builder is the child of two expansions, or twice of one. */
  predicate ChildrenDistinct(xs: seq<Expansion>) {
    && (forall i :: 0 <= i < |xs| ==> AllDifferent(xs[i].children))
    && (forall i, j, c :: 0 <= i < |xs| && 0 <= j < |xs| && c in xs[i].children && c in xs[j].children ==> i == j)
  }

  ghost function Builders(xs: seq<Expansion>): set<StepBuilder> {
    set x, c | x in xs && c in x.children :: c
  }

  lemma AtOneMore(xs: seq<Expansion>, k: nat, t: Id)
    requires k < |xs|
    ensures At(xs[..k + 1], t) == At(xs[..k], t) + if xs[k].id == t then [k] else []
  {
    assert xs[..k + 1][..k] == xs[..k];
  }

  /** The index lists the positions of every expansion id. */
  ghost predicate Indexes(at: map<Id, seq<nat>>, xs: seq<Expansion>) {
    forall t :: Positions(at, t) == At(xs, t)
  }

  function Positions(at: map<Id, seq<nat>>, t: Id): seq<nat> {
    if t in at then at[t] else []
  }

  lemma IndexOneMore(at: map<Id, seq<nat>>, xs: seq<Expansion>, k: nat)
    requires k < |xs| && Indexes(at, xs[..k])
    ensures Indexes(at[xs[k].id := Positions(at, xs[k].id) + [k]], xs[..k + 1])
  {
    var at' := at[xs[k].id := Positions(at, xs[k].id) + [k]];
    forall t ensures Positions(at', t) == At(xs[..k + 1], t) {
      assert Positions(at, t) == At(xs[..k], t);
      AtOneMore(xs, k, t);
    }
  }

  method IndexExpansions(xs: seq<Expansion>) returns (at: map<Id, seq<nat>>)
    ensures Indexes(at, xs)
  {
    at := map[];
    for k := 0 to |xs|
      invariant Indexes(at, xs[..k])
    {
      IndexOneMore(at, xs, k);
      at := at[xs[k].id := Positions(at, xs[k].id) + [k]];
    }
    assert xs[..|xs|] == xs;
  }

  /** The one expansion a NeedsEach names, or why there is none. */
  method FindTarget(xs: seq<Expansion>, x: Expansion, t: Id, idx: seq<nat>) returns (r: Result<seq<StepBuilder>, PairError>)
    requires idx == At(xs, t)
    ensures r.Ok? <==> Pairable(xs, x, t)
    ensures r.Ok? ==> View(r.value) == UpstreamOf(xs, t)
  {
    if t == x.id { return Err(NeedsEachItself(x.id)); }
    if idx == [] { return Err(UnknownExpansion(x.id, t)); }
    if |idx| > 1 { return Err(AmbiguousExpansion(x.id, t)); }
    AtInRange(xs, t);
    assert idx[0] in idx;
    return Ok(xs[idx[0]].children);
  }

  lemma GainsOneMore(xs: seq<Expansion>, units: seq<Id>, ts: seq<Id>, j: nat, base: seq<Id>)
    requires j < |ts|
    ensures base + Gains(xs, units, ts[..j]) + Paired(units, UpstreamOf(xs, ts[j])) == base + Gains(xs, units, ts[..j + 1])
  {
    assert ts[..j + 1][..j] == ts[..j];
  }

  lemma PairableOneMore(xs: seq<Expansion>, x: Expansion, ts: seq<Id>, j: nat)
    requires j < |ts|
    ensures TargetsPairable(xs, x, ts[..j + 1]) <==> TargetsPairable(xs, x, ts[..j]) && Pairable(xs, x, ts[j])
    ensures TargetsPairable(xs, x, ts) ==> Pairable(xs, x, ts[j])
  {
    assert ts[..j + 1][..j] == ts[..j];
    TargetsPairableEach(xs, x, ts);
  }

  predicate AllDifferent(bs: seq<StepBuilder>) {
    forall a, b :: 0 <= a < b < |bs| ==> bs[a] != bs[b]
  }

  /** One NeedsEach target of one expansion. */
  method PairTarget(xs: seq<Expansion>, x: Expansion, t: Id, idx: seq<nat>) returns (err: Option<PairError>)
    requires idx == At(xs, t) && AllDifferent(x.children)
    modifies x.children
    ensures err.None? <==> Pairable(xs, x, t)
    ensures err.None? ==> forall c :: c in x.children ==> c.needs == old(c.needs) + Paired(c.units, UpstreamOf(xs, t))
  {
    var r := FindTarget(xs, x, t, idx);
    if r.Err? { return Some(r.error); }
    PairEach(x.children, r.value);
    err := None;
  }

  /** The target loop for one expansion. */
  method PairExpansion(xs: seq<Expansion>, x: Expansion, at: map<Id, seq<nat>>) returns (err: Option<PairError>)
    requires AllDifferent(x.children)
    requires Indexes(at, xs)
    modifies x.children
    ensures err.None? <==> ExpansionPairable(xs, x)
    ensures err.None? ==> forall c :: c in x.children ==> c.needs == old(c.needs) + Gains(xs, c.units, x.needsEach)
  {
    var ts := x.needsEach;
    for j := 0 to |ts|
      invariant TargetsPairable(xs, x, ts[..j])
      invariant forall c :: c in x.children ==> c.needs == old(c.needs) + Gains(xs, c.units, ts[..j])
    {
      PairableOneMore(xs, x, ts, j);
      err := PairTarget(xs, x, ts[j], Positions(at, ts[j]));
      if err.Some? { return; }
      forall c | c in x.children ensures c.needs == old(c.needs) + Gains(xs, c.units, ts[..j + 1]) {
        GainsOneMore(xs, c.units, ts, j, old(c.needs));
      }
    }
    assert ts[..|ts|] == ts;
    err := None;
  }

  // ----- whom a child waits for, said of the builders -----

  predicate Shares(c: StepBuilder, up: StepBuilder) {
    exists u :: u in c.units && u in up.units
  }

  /** Some unit of c is covered by none of the builders. */
  predicate Uncovered(c: StepBuilder, ups: seq<StepBuilder>) {
    exists u :: u in c.units && forall up :: up in ups ==> u !in up.units
  }

  /** An expansion x's child c is paired with `up`, a child of expansion y. */
  predicate PairsWith(x: Expansion, c: StepBuilder, y: Expansion, up: StepBuilder) {
    y.id in x.needsEach && (Shares(c, up) || Uncovered(c, y.children))
  }

  /** c waits for every builder it is paired with, and gained nothing else. */
  predicate WaitsExactly(xs: seq<Expansion>, x: Expansion, c: StepBuilder, before: seq<Id>, now: seq<Id>) {
    && before <= now
    && (forall y, up :: y in xs && up in y.children && PairsWith(x, c, y, up) ==> up.id in now[|before|..])
    && (forall id :: id in now[|before|..] ==> exists y, up :: y in xs && up in y.children && PairsWith(x, c, y, up) && up.id == id)
  }

  lemma EveryoneListed(ups: seq<StepBuilder>, id: Id)
    ensures id in Ids(View(ups)) <==> exists up :: up in ups && up.id == id
  {
    var all := Ids(View(ups));
    if id in all {
      var i :| 0 <= i < |ups| && all[i] == id;
      assert ups[i] in ups && ups[i].id == id;
    }
    if up :| up in ups && up.id == id {
      var i :| 0 <= i < |ups| && ups[i] == up;
      assert all[i] == id;
    }
  }

  lemma SharersListed(c: StepBuilder, ups: seq<StepBuilder>, id: Id)
    ensures id in Matched(c.units, View(ups)) <==> exists up :: up in ups && up.id == id && Shares(c, up)
  {
    var view := View(ups);
    MatchedMembers(c.units, view);
    if id in Matched(c.units, view) {
      var v :| v in view && v.id == id && SharesUnit(c.units, v);
      var i :| 0 <= i < |ups| && view[i] == v;
      assert ups[i] in ups && Shares(c, ups[i]);
    }
    if up :| up in ups && up.id == id && Shares(c, up) {
      var i :| 0 <= i < |ups| && ups[i] == up;
      assert view[i] in view && SharesUnit(c.units, view[i]);
    }
  }

  lemma PairedMembers(c: StepBuilder, ups: seq<StepBuilder>, id: Id)
    ensures id in Paired(c.units, View(ups)) <==>
            exists up :: up in ups && up.id == id && (Shares(c, up) || Uncovered(c, ups))
  {
    AllCoveredEach(c.units, View(ups));
    CoveredByView(c, ups);
    if Uncovered(c, ups) { EveryoneListed(ups, id); } else { SharersListed(c, ups, id); }
  }

  lemma CoveredByView(c: StepBuilder, ups: seq<StepBuilder>)
    ensures Uncovered(c, ups) <==> exists u :: u in c.units && !Covered(View(ups), u)
  {
    forall u ensures Covered(View(ups), u) <==> exists up :: up in ups && u in up.units {
      if v :| v in View(ups) && u in v.units {
        var i :| 0 <= i < |ups| && View(ups)[i] == v;
        assert ups[i] in ups;
      }
      if up :| up in ups && u in up.units {
        var i :| 0 <= i < |ups| && ups[i] == up;
        assert View(ups)[i] in View(ups);
      }
    }
  }

  /** A target named by exactly one expansion stands for that expansion's children. */
  lemma UpstreamIs(xs: seq<Expansion>, target: Id, y: Expansion)
    requires |At(xs, target)| == 1 && y in xs && y.id == target
    ensures UpstreamOf(xs, target) == View(y.children)
  {
    AtInRange(xs, target);
    var k :| 0 <= k < |xs| && xs[k] == y;
    assert k in At(xs, target) && At(xs, target)[0] == k;
  }

  /** c is paired with a builder called id, of an expansion named in ts. */
  predicate PairedVia(xs: seq<Expansion>, c: StepBuilder, ts: seq<Id>, id: Id) {
    exists y, up :: y in xs && up in y.children && y.id in ts && up.id == id && (Shares(c, up) || Uncovered(c, y.children))
  }

  /** The one expansion a pairable target names. */
  lemma TheTarget(xs: seq<Expansion>, t: Id) returns (z: Expansion)
    requires |At(xs, t)| == 1
    ensures z in xs && z.id == t && UpstreamOf(xs, t) == View(z.children)
    ensures forall y :: y in xs && y.id == t ==> y == z
  {
    AtInRange(xs, t);
    assert At(xs, t)[0] in At(xs, t);
    z := xs[At(xs, t)[0]];
    UpstreamIs(xs, t, z);
    forall y | y in xs && y.id == t ensures y == z {
      var j :| 0 <= j < |xs| && xs[j] == y;
      assert j in At(xs, t);
    }
  }

  lemma ViaOnlyTarget(xs: seq<Expansion>, c: StepBuilder, z: Expansion, id: Id)
    requires z in xs && forall y :: y in xs && y.id == z.id ==> y == z
    ensures PairedVia(xs, c, [z.id], id) <==>
            exists up :: up in z.children && up.id == id && (Shares(c, up) || Uncovered(c, z.children))
  {
  }

  lemma PairedViaOne(xs: seq<Expansion>, c: StepBuilder, t: Id, id: Id)
    requires |At(xs, t)| == 1
    ensures PairedVia(xs, c, [t], id) <==> id in Paired(c.units, UpstreamOf(xs, t))
  {
    var z := TheTarget(xs, t);
    ViaOnlyTarget(xs, c, z, id);
    PairedMembers(c, z.children, id);
  }

  lemma PairedViaOneMore(xs: seq<Expansion>, c: StepBuilder, ts: seq<Id>, t: Id, id: Id)
    ensures PairedVia(xs, c, ts + [t], id) <==> PairedVia(xs, c, ts, id) || PairedVia(xs, c, [t], id)
  {
  }

  lemma GainsLast(xs: seq<Expansion>, units: seq<Id>, ts: seq<Id>, t: Id, id: Id)
    ensures id in Gains(xs, units, ts + [t]) <==> id in Gains(xs, units, ts) || id in Paired(units, UpstreamOf(xs, t))
  {
    assert (ts + [t])[..|ts|] == ts;
  }

  lemma GainsStep(xs: seq<Expansion>, c: StepBuilder, ts: seq<Id>, t: Id, all: seq<Id>, id: Id)
    requires |At(xs, t)| == 1 && all == ts + [t]
    requires id in Gains(xs, c.units, ts) <==> PairedVia(xs, c, ts, id)
    ensures id in Gains(xs, c.units, all) <==> PairedVia(xs, c, all, id)
  {
    GainsLast(xs, c.units, ts, t, id);
    PairedViaOne(xs, c, t, id);
    PairedViaOneMore(xs, c, ts, t, id);
  }

  lemma GainsNothing(xs: seq<Expansion>, c: StepBuilder, id: Id)
    ensures id in Gains(xs, c.units, []) <==> PairedVia(xs, c, [], id)
  {
  }

  lemma TargetsFront(xs: seq<Expansion>, x: Expansion, ts: seq<Id>)
    requires ts != [] && TargetsPairable(xs, x, ts)
    ensures TargetsPairable(xs, x, ts[..|ts| - 1]) && Pairable(xs, x, ts[|ts| - 1])
  {
  }

  lemma FrontAndLast(ts: seq<Id>)
    requires ts != []
    ensures ts == ts[..|ts| - 1] + [ts[|ts| - 1]]
  {
  }

  lemma {:induction false} GainsMembers(xs: seq<Expansion>, x: Expansion, c: StepBuilder, ts: seq<Id>, id: Id)
    requires TargetsPairable(xs, x, ts)
    ensures id in Gains(xs, c.units, ts) <==> PairedVia(xs, c, ts, id)
  {
    if ts == [] {
      GainsNothing(xs, c, id);
    } else {
      TargetsFront(xs, x, ts);
      FrontAndLast(ts);
      var front, t := ts[..|ts| - 1], ts[|ts| - 1];
      GainsMembers(xs, x, c, front, id);
      GainsStep(xs, c, front, t, ts, id);
    }
  }

  lemma GainsExactly(xs: seq<Expansion>, x: Expansion, c: StepBuilder, before: seq<Id>)
    requires ExpansionPairable(xs, x)
    ensures WaitsExactly(xs, x, c, before, before + Gains(xs, c.units, x.needsEach))
  {
    var gains := Gains(xs, c.units, x.needsEach);
    var now := before + gains;
    assert now[|before|..] == gains;
    forall y, up | y in xs && up in y.children && PairsWith(x, c, y, up) ensures up.id in now[|before|..] {
      assert PairedVia(xs, c, x.needsEach, up.id);
      GainsMembers(xs, x, c, x.needsEach, up.id);
    }
    forall id | id in now[|before|..] ensures exists y, up :: y in xs && up in y.children && PairsWith(x, c, y, up) && up.id == id {
      GainsMembers(xs, x, c, x.needsEach, id);
      var y, up :| y in xs && up in y.children && y.id in x.needsEach && up.id == id && (Shares(c, up) || Uncovered(c, y.children));
      assert PairsWith(x, c, y, up);
    }
  }

  /** Refuses exactly the NeedsEach that name no unique other expansion, and lowers all the rest. */
  method LowerNeedsEach(xs: seq<Expansion>) returns (err: Option<PairError>)
    requires ChildrenDistinct(xs)
    modifies Builders(xs)
    ensures err.None? <==> AllPairable(xs)
    ensures err.None? ==> forall i, c :: 0 <= i < |xs| && c in xs[i].children ==>
              WaitsExactly(xs, xs[i], c, old(c.needs), c.needs)
  {
    err := LowerEachExpansion(xs);
    if err.None? {
      forall i, c | 0 <= i < |xs| && c in xs[i].children ensures WaitsExactly(xs, xs[i], c, old(c.needs), c.needs) {
        GainsExactly(xs, xs[i], c, old(c.needs));
      }
    }
  }

  method LowerEachExpansion(xs: seq<Expansion>) returns (err: Option<PairError>)
    requires ChildrenDistinct(xs)
    modifies Builders(xs)
    ensures err.None? <==> AllPairable(xs)
    ensures err.None? ==> forall i, c :: 0 <= i < |xs| && c in xs[i].children ==>
              c.needs == old(c.needs) + Gains(xs, c.units, xs[i].needsEach)
  {
    var at := IndexExpansions(xs);
    for k := 0 to |xs|
      invariant forall i :: 0 <= i < k ==> ExpansionPairable(xs, xs[i])
      invariant forall i, c :: 0 <= i < k && c in xs[i].children ==>
                  c.needs == old(c.needs) + Gains(xs, c.units, xs[i].needsEach)
      invariant forall i, c :: k <= i < |xs| && c in xs[i].children ==> c.needs == old(c.needs)
    {
      assert xs[k] in xs;
      assert forall c :: c in xs[k].children ==> c in Builders(xs);
      label before:
      err := PairExpansion(xs, xs[k], at);
      if err.Some? { return; }
      forall i, c | 0 <= i < |xs| && i != k && c in xs[i].children ensures c.needs == old@before(c.needs) {
        assert c !in xs[k].children;
      }
    }
    err := None;
  }
}
