/**
 Finite directed graphs over step and workflow names, given by their edge sets.
 An edge (a, b) reads "a needs b".
 */
module Graphs {

  type Id = string
  type Edges = set<(Id, Id)>

  /** The graph of a table of needs. */
  function NeedEdges(needs: map<Id, seq<Id>>): Edges {
    set n, m | n in needs && m in needs[n] :: (n, m)
  }

  predicate IsWalk(E: Edges, p: seq<Id>) {
    forall i :: 0 < i < |p| ==> (p[i - 1], p[i]) in E
  }

  /** A walk of at least one edge from `a` to `b`. */
  predicate IsWalkBetween(E: Edges, p: seq<Id>, a: Id, b: Id) {
    |p| >= 2 && p[0] == a && p[|p| - 1] == b && IsWalk(E, p)
  }

  /** The transitive closure of E (not reflexive). */
  ghost predicate Reaches(E: Edges, a: Id, b: Id) {
    exists p :: IsWalkBetween(E, p, a, b)
  }

  ghost predicate Acyclic(E: Edges) {
    forall v :: !Reaches(E, v, v)
  }

  /** A cycle as the error messages print one: its first name is repeated at the end. */
  predicate IsCycle(E: Edges, p: seq<Id>) {
    |p| >= 2 && p[0] == p[|p| - 1] && IsWalk(E, p)
  }

  lemma EdgeReaches(E: Edges, a: Id, b: Id)
    requires (a, b) in E
    ensures Reaches(E, a, b)
  {
    assert IsWalkBetween(E, [a, b], a, b);
  }

  /** A walk without its last edge, and that edge. */
  lemma WalkFront(E: Edges, q: seq<Id>, k: nat)
    requires IsWalk(E, q) && 0 < k == |q| - 1
    ensures |q[..k]| == k && IsWalk(E, q[..k]) && q[..k][0] == q[0] && q[..k][k - 1] == q[k - 1] && (q[k - 1], q[k]) in E
  {
  }

  lemma EmptyReachesNothing(a: Id, b: Id)
    ensures !Reaches({}, a, b)
  {
    var none: Edges := {};
    forall p ensures !IsWalkBetween(none, p, a, b) {
      if |p| >= 2 { assert (p[1 - 1], p[1]) !in none; }
    }
  }

  lemma ReachesTrans(E: Edges, a: Id, b: Id, c: Id)
    requires Reaches(E, a, b) && Reaches(E, b, c)
    ensures Reaches(E, a, c)
  {
    var p :| IsWalkBetween(E, p, a, b);
    var q :| IsWalkBetween(E, q, b, c);
    assert IsWalkBetween(E, p + q[1..], a, c);
  }

  lemma ReachesOrEqual(E: Edges, a: Id, b: Id, c: Id)
    requires a == b || Reaches(E, a, b)
    requires Reaches(E, b, c)
    ensures Reaches(E, a, c)
  {
    if a != b { ReachesTrans(E, a, b, c); }
  }

  lemma ReachesThenEqual(E: Edges, a: Id, b: Id, c: Id)
    requires Reaches(E, a, b)
    requires b == c || Reaches(E, b, c)
    ensures Reaches(E, a, c)
  {
    if b != c { ReachesTrans(E, a, b, c); }
  }

  lemma ReachesMonotone(E: Edges, F: Edges, a: Id, b: Id)
    requires E <= F && Reaches(E, a, b)
    ensures Reaches(F, a, b)
  {
    var p :| IsWalkBetween(E, p, a, b);
    assert IsWalkBetween(F, p, a, b);
  }

  /** If L simulates each edge of F by a walk, it simulates every walk of F. */
  lemma {:induction false} WalkSimulated(F: Edges, L: Edges, p: seq<Id>, a: Id, b: Id)
    requires forall e :: e in F ==> Reaches(L, e.0, e.1)
    requires IsWalkBetween(F, p, a, b)
    ensures Reaches(L, a, b)
    decreases |p|
  {
    var n := |p| - 1;
    assert (p[n - 1], p[n]) in F;
    if n > 1 {
      WalkSimulated(F, L, p[..n], a, p[n - 1]);
      ReachesTrans(L, a, p[n - 1], b);
    }
  }

  lemma ClosureIncluded(F: Edges, L: Edges)
    requires forall e :: e in F ==> Reaches(L, e.0, e.1)
    ensures forall a, b :: Reaches(F, a, b) ==> Reaches(L, a, b)
  {
    forall a, b | Reaches(F, a, b) ensures Reaches(L, a, b) {
      var p :| IsWalkBetween(F, p, a, b);
      WalkSimulated(F, L, p, a, b);
    }
  }

  /** Every cycle is a walk from a node to itself, and conversely. */
  lemma CycleRefutesAcyclic(E: Edges, p: seq<Id>)
    requires IsCycle(E, p)
    ensures !Acyclic(E)
  {
    assert IsWalkBetween(E, p, p[0], p[0]);
    assert Reaches(E, p[0], p[0]);
  }

  // ----- walking down an acyclic graph until it ends -----

  ghost function Below(E: Edges, S: set<Id>, a: Id): set<Id> {
    set b | b in S && Reaches(E, a, b)
  }

  ghost function Above(E: Edges, S: set<Id>, a: Id): set<Id> {
    set b | b in S && Reaches(E, b, a)
  }

  /** From any node of S, following edges inside S ends at a node with no edge into S. */
  lemma {:induction false} DescendToSink(E: Edges, S: set<Id>, a: Id) returns (z: Id)
    requires Acyclic(E) && a in S
    ensures z in S && (a == z || Reaches(E, a, z))
    ensures forall b :: b in S ==> (z, b) !in E
    decreases |Below(E, S, a)|
  {
    if b :| b in S && (a, b) in E {
      EdgeReaches(E, a, b);
      forall c | c in Below(E, S, b) ensures c in Below(E, S, a) {
        ReachesTrans(E, a, b, c);
      }
      assert b in Below(E, S, a) && b !in Below(E, S, b);
      StrictSubsetSmaller(Below(E, S, b), Below(E, S, a));
      z := DescendToSink(E, S, b);
      ReachesThenEqual(E, a, b, z);
    } else {
      z := a;
    }
  }

  /** The mirror image: going against the edges ends at a node nothing in S has an edge to. */
  lemma {:induction false} AscendToSource(E: Edges, S: set<Id>, a: Id) returns (z: Id)
    requires Acyclic(E) && a in S
    ensures z in S && (z == a || Reaches(E, z, a))
    ensures forall b :: b in S ==> (b, z) !in E
    decreases |Above(E, S, a)|
  {
    if b :| b in S && (b, a) in E {
      EdgeReaches(E, b, a);
      forall c | c in Above(E, S, b) ensures c in Above(E, S, a) {
        ReachesTrans(E, c, b, a);
      }
      assert b in Above(E, S, a) && b !in Above(E, S, b);
      StrictSubsetSmaller(Above(E, S, b), Above(E, S, a));
      z := AscendToSource(E, S, b);
      ReachesOrEqual(E, z, b, a);
    } else {
      z := a;
    }
  }

  lemma StrictSubsetSmaller(A: set<Id>, B: set<Id>)
    requires A < B
    ensures |A| < |B|
  {
    assert B == A + (B - A);
    assert B - A != {};
  }

  // ----- topological order -----

  /** `order` lists its names so that everything a name needs comes before it. */
  predicate Topological(E: Edges, order: seq<Id>) {
    forall e, i :: e in E && 0 <= i < |order| && order[i] == e.0 ==> e.1 in order[..i]
  }

  lemma {:induction false} WalkDescends(E: Edges, order: seq<Id>, p: seq<Id>, i: nat) returns (j: nat)
    requires Topological(E, order) && IsWalk(E, p) && |p| >= 2
    requires i < |order| && order[i] == p[0]
    ensures j < i && order[j] == p[|p| - 1]
    decreases |p|
  {
    assert (p[0], p[1]) in E;
    assert p[1] in order[..i];
    j :| 0 <= j < i && order[j] == p[1];
    if |p| > 2 {
      var q := p[1..];
      assert forall k :: 0 < k < |q| ==> q[k - 1] == p[k] && q[k] == p[k + 1];
      j := WalkDescends(E, order, q, j);
    }
  }

  /** A topological order without repeats that lists every source of an edge refutes all cycles. */
  lemma TopologicalAcyclic(E: Edges, order: seq<Id>)
    requires Topological(E, order)
    requires forall i, j :: 0 <= i < j < |order| ==> order[i] != order[j]
    requires forall e :: e in E ==> e.0 in order
    ensures Acyclic(E)
  {
    forall v ensures !Reaches(E, v, v) {
      if Reaches(E, v, v) {
        var p :| IsWalkBetween(E, p, v, v);
        assert (p[0], p[1]) in E;
        var i :| 0 <= i < |order| && order[i] == v;
        var j := WalkDescends(E, order, p, i);
        assert false;
      }
    }
  }
}
