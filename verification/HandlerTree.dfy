/**
 toNode: a step's builder, with the handlers hanging off it, copied into a plan node. Builders are
 shared and may refer back to each other, so the copy is a tree only when no chain of handlers
 returns to a builder it passed through.
 */
module HandlerTrees {
  import opened Wrappers

  /** A builder's identity, the pointer the path set compares by. */
  type Ref = int

  /** `broken` is anything toNode refuses about the builder itself: a recorded error, no action, a bad mount. */
  datatype Builder = Builder(id: string, broken: bool, onFailure: seq<Ref>, always: seq<Ref>)

  type Heap = map<Ref, Builder>

  datatype Node = Node(id: string, onFailure: seq<Node>, always: seq<Node>)

  datatype NodeError = RefersToItself(id: string) | Broken(id: string)

  predicate Closed(heap: Heap) {
    forall r :: r in heap ==>
      (forall h :: h in heap[r].onFailure ==> h in heap) && (forall h :: h in heap[r].always ==> h in heap)
  }

  /** The finite tree n is what the builder r describes, every builder on the way usable. */
  predicate Unfolds(heap: Heap, r: Ref, n: Node)
    decreases n
  {
    && r in heap && !heap[r].broken && n.id == heap[r].id
    && |n.onFailure| == |heap[r].onFailure| && |n.always| == |heap[r].always|
    && (forall i :: 0 <= i < |n.onFailure| ==> Unfolds(heap, heap[r].onFailure[i], n.onFailure[i]))
    && (forall i :: 0 <= i < |n.always| ==> Unfolds(heap, heap[r].always[i], n.always[i]))
  }

  /** Each builder of the chain is a handler of the one before it. */
  predicate IsChain(heap: Heap, p: seq<Ref>) {
    forall i :: 0 < i < |p| ==> Linked(heap, p, i)
  }

  predicate Linked(heap: Heap, p: seq<Ref>, i: int)
    requires 0 < i < |p|
  {
    p[i - 1] in heap && IsHandler(heap[p[i - 1]], p[i])
  }

  predicate IsHandler(b: Builder, h: Ref) {
    h in b.onFailure || h in b.always
  }

  // ----- a chain that closes admits no finite tree -----

  lemma HandlerUnfolds(heap: Heap, r: Ref, h: Ref, n: Node) returns (m: Node)
    requires Unfolds(heap, r, n) && IsHandler(heap[r], h)
    ensures m < n && Unfolds(heap, h, m)
  {
    if h in heap[r].onFailure {
      var i :| 0 <= i < |n.onFailure| && heap[r].onFailure[i] == h;
      m := n.onFailure[i];
    } else {
      var i :| 0 <= i < |n.always| && heap[r].always[i] == h;
      m := n.always[i];
    }
  }

  lemma {:induction false} ChainUnfolds(heap: Heap, p: seq<Ref>, n: Node) returns (m: Node)
    requires |p| >= 2 && IsChain(heap, p) && Unfolds(heap, p[0], n)
    ensures m < n && Unfolds(heap, p[|p| - 1], m)
    decreases |p|
  {
    assert Linked(heap, p, 1);
    m := HandlerUnfolds(heap, p[0], p[1], n);
    if |p| > 2 {
      var q := p[1..];
      forall i | 0 < i < |q| ensures Linked(heap, q, i) { assert Linked(heap, p, i + 1); }
      m := ChainUnfolds(heap, q, m);
    }
  }

  /** Infinite descent: a builder on a cycle of handlers describes no finite tree. */
  lemma {:induction false} CycleNeverUnfolds(heap: Heap, p: seq<Ref>, n: Node)
    requires |p| >= 2 && IsChain(heap, p) && p[0] == p[|p| - 1]
    ensures !Unfolds(heap, p[0], n)
    decreases n
  {
    if Unfolds(heap, p[0], n) {
      var m := ChainUnfolds(heap, p, n);
      CycleNeverUnfolds(heap, p, m);
    }
  }

  // ----- why a builder cannot be converted -----

  predicate ChainFrom(heap: Heap, r: Ref, p: seq<Ref>) {
    p != [] && p[0] == r && IsChain(heap, p)
  }

  /** The chain ends at a broken builder, or at one it already passed. */
  predicate Explains(heap: Heap, p: seq<Ref>, err: NodeError)
    requires p != []
  {
    var last := p[|p| - 1];
    last in heap && err.id == heap[last].id &&
    match err
    case Broken(_) => heap[last].broken
    case RefersToItself(_) => last in p[..|p| - 1]
  }

  ghost predicate Reason(heap: Heap, r: Ref, err: NodeError) {
    exists p :: ChainFrom(heap, r, p) && Explains(heap, p, err)
  }

  ghost predicate Faulty(heap: Heap, r: Ref) {
    exists err :: Reason(heap, r, err)
  }

  lemma BrokenHere(heap: Heap, r: Ref)
    requires r in heap && heap[r].broken
    ensures Reason(heap, r, Broken(heap[r].id))
  {
    assert ChainFrom(heap, r, [r]) && Explains(heap, [r], Broken(heap[r].id));
  }

  /** A builder already on the descent closes the stretch of the chain from where it was passed. */
  lemma ReturnsHere(heap: Heap, r: Ref, chain: seq<Ref>)
    requires r in heap && IsChain(heap, chain + [r]) && r in chain
    ensures Reason(heap, r, RefersToItself(heap[r].id))
  {
    var i :| 0 <= i < |chain| && chain[i] == r;
    var whole := chain + [r];
    var p := whole[i..];
    forall j | 0 < j < |p| ensures Linked(heap, p, j) { assert Linked(heap, whole, i + j); }
    assert p[0] in p[..|p| - 1];
    assert ChainFrom(heap, r, p) && Explains(heap, p, RefersToItself(heap[r].id));
  }

  /** What stops a handler stops the builder it hangs off. */
  lemma HandlerStops(heap: Heap, r: Ref, h: Ref, err: NodeError)
    requires r in heap && IsHandler(heap[r], h) && Reason(heap, h, err)
    ensures Reason(heap, r, err)
  {
    var p :| ChainFrom(heap, h, p) && Explains(heap, p, err);
    var q := [r] + p;
    forall i | 0 < i < |q| ensures Linked(heap, q, i) {
      if i > 1 { assert Linked(heap, p, i - 1); }
    }
    assert q[..|q| - 1] == [r] + p[..|p| - 1];
    assert ChainFrom(heap, r, q) && Explains(heap, q, err);
  }

  lemma PrefixUnfolds(heap: Heap, p: seq<Ref>, k: nat, n: Node) returns (m: Node)
    requires k < |p| && IsChain(heap, p) && Unfolds(heap, p[0], n)
    ensures Unfolds(heap, p[k], m)
  {
    m := n;
    if k > 0 {
      var q := p[..k + 1];
      forall i | 0 < i < |q| ensures Linked(heap, q, i) { assert Linked(heap, p, i); }
      m := ChainUnfolds(heap, q, n);
    }
  }

  /** A builder with such a chain describes no finite tree. */
  lemma FaultyNeverUnfolds(heap: Heap, r: Ref, n: Node)
    requires Faulty(heap, r)
    ensures !Unfolds(heap, r, n)
  {
    if Unfolds(heap, r, n) {
      var err :| Reason(heap, r, err);
      var p :| ChainFrom(heap, r, p) && Explains(heap, p, err);
      var last := |p| - 1;
      if err.Broken? {
        var m := PrefixUnfolds(heap, p, last, n);
      } else {
        var i :| 0 <= i < last && p[i] == p[last];
        var m := PrefixUnfolds(heap, p, i, n);
        var q := p[i..];
        forall j | 0 < j < |q| ensures Linked(heap, q, j) { assert Linked(heap, p, i + j); }
        CycleNeverUnfolds(heap, q, m);
      }
    }
  }

  // ----- the conversion -----

  /** The builders on the current descent, one set shared by all of it. */
  class PathSet {
    var refs: set<Ref>

    constructor ()
      ensures refs == {}
    {
      refs := {};
    }
  }

  function Refs(chain: seq<Ref>): set<Ref> {
    set c | c in chain
  }

  /**
   Succeeds, with the tree the builder unfolds to, unless a chain of handlers from it reaches a broken
   builder or returns to one it passed; the error says which, and whose. The shared path set is left as
   it was found, and is what bounds the descent: inside a call it only ever grows within a finite heap.
   */
  method ToNode(heap: Heap, r: Ref, path: PathSet, ghost chain: seq<Ref>) returns (res: Result<Node, NodeError>)
    requires Closed(heap) && r in heap
    requires IsChain(heap, chain + [r]) && path.refs == Refs(chain) && path.refs <= heap.Keys
    modifies path
    ensures path.refs == old(path.refs)
    ensures res.Ok? <==> !Faulty(heap, r)
    ensures res.Ok? ==> Unfolds(heap, r, res.value)
    ensures res.Err? ==> Reason(heap, r, res.error)
    decreases heap.Keys - path.refs, 0
  {
    if r in path.refs {
      ReturnsHere(heap, r, chain);
      return Err(RefersToItself(heap[r].id));
    }
    path.refs := path.refs + {r};
    res := Convert(heap, r, path, chain + [r]);
    path.refs := path.refs - {r};
    if res.Ok? && Faulty(heap, r) { FaultyNeverUnfolds(heap, r, res.value); }
  }

  /** The rest of toNode, between adding the builder to the path and the deferred removal. */
  method Convert(heap: Heap, r: Ref, path: PathSet, ghost chain: seq<Ref>) returns (res: Result<Node, NodeError>)
    requires Closed(heap) && r in heap
    requires chain != [] && chain[|chain| - 1] == r && IsChain(heap, chain)
    requires path.refs == Refs(chain) && path.refs <= heap.Keys
    modifies path
    ensures path.refs == old(path.refs)
    ensures res.Ok? ==> Unfolds(heap, r, res.value)
    ensures res.Err? ==> Reason(heap, r, res.error)
    decreases heap.Keys - path.refs, 2
  {
    if heap[r].broken {
      BrokenHere(heap, r);
      return Err(Broken(heap[r].id));
    }
    var failures := ToNodes(heap, r, heap[r].onFailure, path, chain);
    if failures.Err? { return Err(failures.error); }
    var always := ToNodes(heap, r, heap[r].always, path, chain);
    if always.Err? { return Err(always.error); }
    return Ok(Node(heap[r].id, failures.value, always.value));
  }

  /** The loop over one list of handlers of r. */
  method ToNodes(heap: Heap, ghost r: Ref, hs: seq<Ref>, path: PathSet, ghost chain: seq<Ref>)
    returns (res: Result<seq<Node>, NodeError>)
    requires Closed(heap) && r in heap && forall h :: h in hs ==> IsHandler(heap[r], h)
    requires chain != [] && chain[|chain| - 1] == r && IsChain(heap, chain)
    requires path.refs == Refs(chain) && path.refs <= heap.Keys
    modifies path
    ensures path.refs == old(path.refs)
    ensures res.Ok? ==> |res.value| == |hs| && forall i :: 0 <= i < |hs| ==> Unfolds(heap, hs[i], res.value[i])
    ensures res.Err? ==> Reason(heap, r, res.error)
    decreases heap.Keys - path.refs, 1
  {
    var out: seq<Node> := [];
    for i := 0 to |hs|
      invariant path.refs == old(path.refs)
      invariant |out| == i && forall j :: 0 <= j < i ==> Unfolds(heap, hs[j], out[j])
    {
      assert hs[i] in hs;
      ExtendChain(heap, chain, hs[i]);
      var n := ToNode(heap, hs[i], path, chain);
      if n.Err? {
        HandlerStops(heap, r, hs[i], n.error);
        return Err(n.error);
      }
      out := out + [n.value];
    }
    return Ok(out);
  }

  lemma ExtendChain(heap: Heap, chain: seq<Ref>, h: Ref)
    requires chain != [] && IsChain(heap, chain) && chain[|chain| - 1] in heap && IsHandler(heap[chain[|chain| - 1]], h)
    ensures IsChain(heap, chain + [h])
  {
    var p := chain + [h];
    forall i | 0 < i < |p| ensures Linked(heap, p, i) {
      if i < |chain| { assert Linked(heap, chain, i); }
    }
  }

  /**
   What a converted builder shows: its id, and one node for each of its handlers, failure handlers under onFailure and
   the others under always, in order.
   */
  lemma TreeShows(heap: Heap, r: Ref, n: Node)
    requires Unfolds(heap, r, n)
    ensures r in heap && n.id == heap[r].id && !heap[r].broken
    ensures |n.onFailure| == |heap[r].onFailure| && |n.always| == |heap[r].always|
    ensures forall i :: 0 <= i < |n.onFailure| ==> heap[r].onFailure[i] in heap && n.onFailure[i].id == heap[heap[r].onFailure[i]].id
    ensures forall i :: 0 <= i < |n.always| ==> heap[r].always[i] in heap && n.always[i].id == heap[heap[r].always[i]].id
  {
    forall i | 0 <= i < |n.onFailure| ensures heap[r].onFailure[i] in heap && n.onFailure[i].id == heap[heap[r].onFailure[i]].id {
      assert Unfolds(heap, heap[r].onFailure[i], n.onFailure[i]);
    }
    forall i | 0 <= i < |n.always| ensures heap[r].always[i] in heap && n.always[i].id == heap[heap[r].always[i]].id {
      assert Unfolds(heap, heap[r].always[i], n.always[i]);
    }
  }

  /** A step's conversion, as Build asks for it: from an empty path. */
  method StepNode(heap: Heap, r: Ref) returns (res: Result<Node, NodeError>)
    requires Closed(heap) && r in heap
    ensures res.Ok? <==> !Faulty(heap, r)
    ensures res.Ok? ==> Unfolds(heap, r, res.value)
    ensures res.Err? ==> Reason(heap, r, res.error)
  {
    var path := new PathSet();
    res := ToNode(heap, r, path, []);
  }

  /** The tree is the only one, so what the plan records is determined by the builders. */
  lemma {:induction false} UnfoldsUnique(heap: Heap, r: Ref, m: Node, n: Node)
    requires Unfolds(heap, r, m) && Unfolds(heap, r, n)
    ensures m == n
    decreases m
  {
    forall i | 0 <= i < |m.onFailure| ensures m.onFailure[i] == n.onFailure[i] {
      UnfoldsUnique(heap, heap[r].onFailure[i], m.onFailure[i], n.onFailure[i]);
    }
    forall i | 0 <= i < |m.always| ensures m.always[i] == n.always[i] {
      UnfoldsUnique(heap, heap[r].always[i], m.always[i], n.always[i]);
    }
  }
}
