/**
 Restoring a step's workspaces side by side: each restore replaces the subtree at its mount path, so
 the mounts are restored shortest path first.
 */
module Restores {
  import opened Wrappers

  type Content = string

  /** What each file path holds, None when there is no such file. */
  type Files = string -> Option<Content>

  /** A snapshot to restore at a cleaned, absolute path; `usable` says its digest is valid and it unpacks. */
  datatype Target = Target(path: string, snapshot: map<string, Content>, usable: bool)

  /** f is the directory itself or lies below it. */
  predicate Encloses(dir: string, f: string) {
    f == dir || dir + "/" <= f
  }

  /** The part of f below an enclosing directory. */
  function Below(dir: string, f: string): string
    requires Encloses(dir, f)
  {
    if f == dir then "" else f[|dir| + 1..]
  }

  function Held(t: Target, f: string): Option<Content>
    requires Encloses(t.path, f)
  {
    var rel := Below(t.path, f);
    if rel in t.snapshot then Some(t.snapshot[rel]) else None
  }

  /** A restore REPLACES its destination: below it there is the snapshot and nothing else. */
  function Restore(fs: Files, t: Target): Files {
    (f: string) => if Encloses(t.path, f) then Held(t, f) else fs(f)
  }

  function RestoreAll(fs: Files, order: seq<Target>): Files {
    if order == [] then fs else Restore(RestoreAll(fs, order[..|order| - 1]), order[|order| - 1])
  }

  // ----- the order -----

  predicate ByLength(ts: seq<Target>) {
    forall i, j :: 0 <= i < j < |ts| ==> |ts[i].path| <= |ts[j].path|
  }

  /** Inserts behind everything not longer, which is what makes the sort stable. */
  function InsertStable(ts: seq<Target>, t: Target): seq<Target> {
    if ts == [] then [t]
    else
      var k := |ts| - 1;
      if |ts[k].path| <= |t.path| then ts + [t] else InsertStable(ts[..k], t) + [ts[k]]
  }

  /** sort.SliceStable by path length. */
  function StableSort(ts: seq<Target>): seq<Target> {
    if ts == [] then [] else InsertStable(StableSort(ts[..|ts| - 1]), ts[|ts| - 1])
  }

  lemma {:induction false} InsertKeepsOrder(ts: seq<Target>, t: Target)
    requires ByLength(ts)
    ensures ByLength(InsertStable(ts, t)) && forall u :: u in InsertStable(ts, t) <==> u in ts || u == t
  {
    if ts != [] {
      var k := |ts| - 1;
      assert ts == ts[..k] + [ts[k]];
      if |ts[k].path| > |t.path| {
        InsertKeepsOrder(ts[..k], t);
        var r := InsertStable(ts[..k], t);
        forall i | 0 <= i < |r| ensures |r[i].path| <= |ts[k].path| {
          assert r[i] in r;
        }
      }
    }
  }

  lemma {:induction false} StableSortSorts(ts: seq<Target>)
    ensures ByLength(StableSort(ts)) && forall u :: u in StableSort(ts) <==> u in ts
  {
    if ts != [] {
      var k := |ts| - 1;
      StableSortSorts(ts[..k]);
      InsertKeepsOrder(StableSort(ts[..k]), ts[k]);
      assert ts == ts[..k] + [ts[k]];
    }
  }

  // ----- who decides a path -----

  /** The last target in a list that encloses f. */
  function LastEnclosing(ts: seq<Target>, f: string): Option<Target> {
    if ts == [] then None
    else if Encloses(ts[|ts| - 1].path, f) then Some(ts[|ts| - 1])
    else LastEnclosing(ts[..|ts| - 1], f)
  }

  /** The longest target in plan order that encloses f, the later one among equals. */
  function Longest(ts: seq<Target>, f: string): Option<Target> {
    if ts == [] then None
    else
      var t, best := ts[|ts| - 1], Longest(ts[..|ts| - 1], f);
      if Encloses(t.path, f) && (best.None? || |best.value.path| <= |t.path|) then Some(t) else best
  }

  function Expected(fs: Files, t: Option<Target>, f: string): Option<Content>
    requires t.Some? ==> Encloses(t.value.path, f)
  {
    if t.Some? then Held(t.value, f) else fs(f)
  }

  lemma {:induction false} LastEnclosingIs(ts: seq<Target>, f: string)
    ensures var t := LastEnclosing(ts, f); t.Some? ==> t.value in ts && Encloses(t.value.path, f)
    ensures LastEnclosing(ts, f).None? ==> forall t :: t in ts ==> !Encloses(t.path, f)
  {
    if ts != [] {
      var k := |ts| - 1;
      LastEnclosingIs(ts[..k], f);
      assert forall t :: t in ts <==> t in ts[..k] || t == ts[k];
    }
  }

  /** What is left at f after all restores is what the last enclosing one put there. */
  lemma {:induction false} LastRestoreWins(fs: Files, order: seq<Target>, f: string)
    ensures LastEnclosing(order, f).Some? ==> Encloses(LastEnclosing(order, f).value.path, f)
    ensures RestoreAll(fs, order)(f) == Expected(fs, LastEnclosing(order, f), f)
  {
    LastEnclosingIs(order, f);
    if order != [] { LastRestoreWins(fs, order[..|order| - 1], f); }
  }

  lemma LastOfAppend(ts: seq<Target>, t: Target, f: string)
    ensures LastEnclosing(ts + [t], f) == if Encloses(t.path, f) then Some(t) else LastEnclosing(ts, f)
  {
    assert (ts + [t])[..|ts|] == ts;
  }

  lemma LastNotLonger(ts: seq<Target>, f: string)
    requires ByLength(ts) && LastEnclosing(ts, f).Some?
    ensures |LastEnclosing(ts, f).value.path| <= |ts[|ts| - 1].path|
  {
    LastEnclosingIs(ts, f);
    var i :| 0 <= i < |ts| && ts[i] == LastEnclosing(ts, f).value;
  }

  lemma {:induction false} LastAfterInsert(ts: seq<Target>, t: Target, f: string)
    requires ByLength(ts)
    ensures LastEnclosing(InsertStable(ts, t), f) ==
            var best := LastEnclosing(ts, f);
            if Encloses(t.path, f) && (best.None? || |best.value.path| <= |t.path|) then Some(t) else best
  {
    if ts == [] {
      LastOfAppend([], t, f);
      assert [] + [t] == [t];
    } else {
      var k := |ts| - 1;
      if |ts[k].path| <= |t.path| {
        LastOfAppend(ts, t, f);
        if LastEnclosing(ts, f).Some? { LastNotLonger(ts, f); }
      } else {
        LastAfterInsert(ts[..k], t, f);
        LastOfAppend(InsertStable(ts[..k], t), ts[k], f);
      }
    }
  }

  lemma {:induction false} SortedLastIsLongest(ts: seq<Target>, f: string)
    ensures LastEnclosing(StableSort(ts), f) == Longest(ts, f)
  {
    if ts != [] {
      var k := |ts| - 1;
      SortedLastIsLongest(ts[..k], f);
      StableSortSorts(ts[..k]);
      LastAfterInsert(StableSort(ts[..k]), ts[k], f);
    }
  }

  // ----- longest means deepest -----

  /** Two directories that enclose the same path are nested, the longer inside the shorter. */
  lemma EnclosingNested(p: string, q: string, f: string)
    requires Encloses(p, f) && Encloses(q, f) && |p| <= |q|
    ensures Encloses(p, q) && (|p| == |q| ==> p == q)
  {
    assert p == f[..|p|] && q == f[..|q|];
    if |p| < |q| {
      assert f[|p|] == '/';
      assert q == (p + "/") + q[|p| + 1..];
    }
  }

  /** The mount that holds f: it encloses f, and every mount that does encloses it. */
  ghost predicate Deepest(ts: seq<Target>, t: Target, f: string) {
    t in ts && Encloses(t.path, f) && forall u :: u in ts && Encloses(u.path, f) ==> Encloses(u.path, t.path)
  }

  lemma {:induction false} LongestIsDeepest(ts: seq<Target>, f: string)
    ensures Longest(ts, f).Some? ==> Deepest(ts, Longest(ts, f).value, f)
    ensures Longest(ts, f).None? ==> forall u :: u in ts ==> !Encloses(u.path, f)
  {
    if ts != [] {
      var k := |ts| - 1;
      LongestIsDeepest(ts[..k], f);
      assert forall u :: u in ts <==> u in ts[..k] || u == ts[k];
      if Longest(ts, f).Some? {
        var t := Longest(ts, f).value;
        forall u | u in ts && Encloses(u.path, f) ensures Encloses(u.path, t.path) {
          NestedUnderLongest(ts, u, f);
          EnclosingNested(u.path, t.path, f);
        }
      }
    }
  }

  lemma {:induction false} NestedUnderLongest(ts: seq<Target>, u: Target, f: string)
    requires u in ts && Encloses(u.path, f)
    ensures var t := Longest(ts, f); t.Some? && t.value in ts && Encloses(t.value.path, f) && |u.path| <= |t.value.path|
  {
    var k := |ts| - 1;
    if u in ts[..k] {
      NestedUnderLongest(ts[..k], u, f);
    } else {
      assert u == ts[k];
      if Longest(ts[..k], f).Some? { LongestEncloses(ts[..k], f); }
    }
  }

  lemma {:induction false} LongestEncloses(ts: seq<Target>, f: string)
    requires Longest(ts, f).Some?
    ensures Longest(ts, f).value in ts && Encloses(Longest(ts, f).value.path, f)
  {
    var k := |ts| - 1;
    if Longest(ts[..k], f).Some? { LongestEncloses(ts[..k], f); }
  }

  predicate PathsDistinct(ts: seq<Target>) {
    forall t, u :: t in ts && u in ts && t.path == u.path ==> t == u
  }

  /**
   With distinct mount paths, every path ends up holding what the deepest mount enclosing it holds,
   whatever order the plan lists the mounts in; a path no mount encloses is left alone.
   */
  lemma DeepestMountWins(fs: Files, ts: seq<Target>, f: string)
    requires PathsDistinct(ts)
    ensures forall t :: Deepest(ts, t, f) ==> RestoreAll(fs, StableSort(ts))(f) == Held(t, f)
    ensures (forall t :: t in ts ==> !Encloses(t.path, f)) ==> RestoreAll(fs, StableSort(ts))(f) == fs(f)
  {
    LastRestoreWins(fs, StableSort(ts), f);
    SortedLastIsLongest(ts, f);
    LongestIsDeepest(ts, f);
    forall t | Deepest(ts, t, f) ensures Longest(ts, f) == Some(t) {
      var best := Longest(ts, f).value;
      assert Encloses(t.path, best.path) && Encloses(best.path, t.path);
      assert |t.path| <= |best.path| <= |t.path|;
      EnclosingNested(t.path, best.path, f);
    }
  }

  /** Even with repeated paths, the plan's later mount of the deepest path wins. */
  lemma RestoredIs(fs: Files, ts: seq<Target>, f: string)
    ensures Longest(ts, f).Some? ==> Encloses(Longest(ts, f).value.path, f)
    ensures RestoreAll(fs, StableSort(ts))(f) == Expected(fs, Longest(ts, f), f)
  {
    LastRestoreWins(fs, StableSort(ts), f);
    SortedLastIsLongest(ts, f);
  }

  method SortTargets(targets: seq<Target>) returns (order: seq<Target>)
    ensures order == StableSort(targets)
  {
    order := [];
    for k := 0 to |targets|
      invariant order == StableSort(targets[..k])
    {
      assert targets[..k + 1][..k] == targets[..k];
      order := InsertStable(order, targets[k]);
    }
    assert targets[..|targets|] == targets;
  }

  /** The restore loop: nothing is returned unless every snapshot unpacks. */
  method RestoreMounts(fs: Files, targets: seq<Target>) returns (r: Result<Files, string>)
    ensures r.Ok? <==> forall t :: t in targets ==> t.usable
    ensures r.Ok? ==> r.value == RestoreAll(fs, StableSort(targets))
  {
    var order := SortTargets(targets);
    StableSortSorts(targets);
    var out := fs;
    for k := 0 to |order|
      invariant out == RestoreAll(fs, order[..k])
      invariant forall i :: 0 <= i < k ==> order[i].usable
    {
      assert order[..k + 1][..k] == order[..k];
      if !order[k].usable {
        assert order[k] in order;
        return Err(order[k].path);
      }
      out := Restore(out, order[k]);
    }
    assert order[..|order|] == order;
    return Ok(out);
  }

  // ----- spelled out -----

  /** A directory encloses itself and what continues it with a slash, and nothing that merely shares its beginning. */
  lemma EnclosesMeans(dir: string, f: string)
    ensures Encloses(dir, f) <==> f == dir || (|f| > |dir| && f[..|dir|] == dir && f[|dir|] == '/')
    ensures forall name :: Encloses(dir, dir + "/" + name)
    ensures forall c, name :: c != '/' ==> !Encloses(dir, dir + [c] + name)
  {
    forall name ensures Encloses(dir, dir + "/" + name) {
      assert dir + "/" + name == (dir + "/") + name;
    }
    forall c, name | c != '/' ensures !Encloses(dir, dir + [c] + name) {
      var g := dir + [c] + name;
      assert g[|dir|] == c && |g| != |dir|;
    }
    if |f| > |dir| && f[..|dir|] == dir && f[|dir|] == '/' {
      assert f[..|dir| + 1] == dir + "/";
    }
  }

  /** Below a mount there is what its snapshot holds under the rest of the path, and nothing else. */
  lemma RestoredBelow(fs: Files, t: Target, name: string, other: string)
    ensures Restore(fs, t)(t.path + "/" + name) == if name in t.snapshot then Some(t.snapshot[name]) else None
    ensures (forall c :: other != t.path + "/" + c) && other != t.path ==> Restore(fs, t)(other) == fs(other)
  {
    var f := t.path + "/" + name;
    EnclosesMeans(t.path, f);
    assert f != t.path by { assert |f| > |t.path|; }
    assert f[|t.path| + 1..] == name;
    assert Encloses(t.path, f) && Below(t.path, f) == name;
    assert Restore(fs, t)(f) == Held(t, f);
    if Encloses(t.path, other) && other != t.path {
      assert other == t.path + "/" + other[|t.path| + 1..];
    }
  }

  /** A workspace at /work leaves /workspace alone. */
  lemma SiblingLeftAlone(fs: Files, snapshot: map<string, Content>)
    ensures Restore(fs, Target("/work", snapshot, true))("/workspace/x") == fs("/workspace/x")
    ensures Restore(fs, Target("/work", snapshot, true))("/work/x") == if "x" in snapshot then Some(snapshot["x"]) else None
  {
    var t := Target("/work", snapshot, true);
    EnclosesMeans("/work", "/workspace/x");
    assert "/workspace/x"[5] == 's' && |"/work"| == 5;
    RestoredBelow(fs, t, "x", "");
    assert "/work" + "/" + "x" == "/work/x";
  }
}
