/**
 The webhook dispatcher's concurrency protocol as interleaved steps of any number of deliveries, served
 by any number of dispatcher processes that share one exclusive lock. Every step is one atomic action of
 one delivery: a call into the lock, a section under the mutex, or a deferred action of run.
 */
module Dispatcher {
  import opened Wrappers

  type Delivery = int
  type Process = int

  /** Which process serves a delivery, and which processes run with -cancel-in-progress. */
  datatype Config = Config(home: Delivery -> Process, displaces: Process -> bool)

  datatype Status = Conflict409 | Failed500

  /** Where a delivery is in take (the first five), in run, or at its end. */
  datatype Pc =
    | Unseen
    | Trying                                                        // first TryAcquire
    | Displacing                                                    // the lock is held; about to read the handle
    | Stopping(stop: Option<Delivery>, heldBy: Option<Delivery>)    // handle read; heldBy is the lock's holder then
    | Polling                                                       // waiting for the displaced run to let go
    | Accepted                                                      // lock taken, 202 answered, run starting
    | Staged                                                        // temporary file created
    | Written                                                       // delivery on disk, context made
    | Registered                                                    // running is this run's cancel function
    | Executing                                                     // the pipeline process runs
    | Unregistering                                                 // deferred, last in first out: clear running,
    | Cancelling                                                    // cancel the context,
    | Removing                                                      // remove the file,
    | Releasing                                                     // release the lock
    | Finished
    | Rejected(status: Status)

  /** Why a run's context was cancelled. */
  datatype Cause = StoppedBy(stopper: Delivery, heldBy: Option<Delivery>) | TimedOut | Ended

  datatype State = State(
    holder: Option<Delivery>,
    running: map<Process, Delivery>,       // nil is absence
    pcs: map<Delivery, Pc>,
    cancelled: set<(Delivery, Cause)>,
    acquired: multiset<Delivery>,          // one entry per successful TryAcquire
    released: multiset<Delivery>)          // one entry per Release

  const INIT := State(None, map[], map[], {}, multiset{}, multiset{})

  datatype Action =
    | Arrive(d: Delivery)
    | Acquire(d: Delivery)
    | FindHeld(d: Delivery)
    | LockBroken(d: Delivery)
    | ReadHandle(d: Delivery)
    | CallStop(d: Delivery)
    | GiveUp(d: Delivery)
    | Stage(d: Delivery)
    | StageFails(d: Delivery)
    | Write(d: Delivery)
    | WriteFails(d: Delivery)
    | Register(d: Delivery)
    | Start(d: Delivery)
    | Exit(d: Delivery)
    | Timeout(d: Delivery)
    | Unregister(d: Delivery)
    | CancelOwn(d: Delivery)
    | Remove(d: Delivery)
    | Release(d: Delivery)

  function PcOf(s: State, d: Delivery): Pc {
    if d in s.pcs then s.pcs[d] else Unseen
  }

  function Goto(s: State, d: Delivery, pc: Pc): State {
    s.(pcs := s.pcs[d := pc])
  }

  predicate HasContext(pc: Pc) {
    pc.Registered? || pc.Executing? || pc.Unregistering?
  }

  /** Whether an action can happen. A broken lock and a timeout may strike at any moment they apply. */
  predicate Enabled(c: Config, s: State, a: Action) {
    var pc := PcOf(s, a.d);
    match a
    case Arrive(_) => pc.Unseen?
    case Acquire(_) => (pc.Trying? || pc.Polling?) && s.holder.None?
    case FindHeld(_) => pc.Trying? && s.holder.Some?
    case LockBroken(_) => pc.Trying?
    case ReadHandle(_) => pc.Displacing?
    case CallStop(_) => pc.Stopping?
    case GiveUp(_) => pc.Polling?
    case Stage(_) => pc.Accepted?
    case StageFails(_) => pc.Accepted?
    case Write(_) => pc.Staged?
    case WriteFails(_) => pc.Staged?
    case Register(_) => pc.Written?
    case Start(_) => pc.Registered?
    case Exit(_) => pc.Executing?
    case Timeout(_) => HasContext(pc)
    case Unregister(_) => pc.Unregistering?
    case CancelOwn(_) => pc.Cancelling?
    case Remove(_) => pc.Removing?
    case Release(_) => pc.Releasing?
  }

  function Do(c: Config, s: State, a: Action): State
    requires Enabled(c, s, a)
  {
    var d := a.d;
    match a
    case Arrive(_) => Goto(s, d, Trying)
    case Acquire(_) => Goto(s, d, Accepted).(holder := Some(d), acquired := s.acquired + multiset{d})
    case FindHeld(_) => Goto(s, d, if c.displaces(c.home(d)) then Displacing else Rejected(Conflict409))
    case LockBroken(_) => Goto(s, d, Rejected(Failed500))
    case ReadHandle(_) =>
      var r := c.home(d);
      Goto(s, d, Stopping(if r in s.running then Some(s.running[r]) else None, s.holder))
    case CallStop(_) =>
      var Stopping(stop, heldBy) := PcOf(s, d);
      Goto(s, d, Polling).(cancelled := s.cancelled + if stop.Some? then {(stop.value, StoppedBy(d, heldBy))} else {})
    case GiveUp(_) => Goto(s, d, Rejected(Failed500))
    case Stage(_) => Goto(s, d, Staged)
    case StageFails(_) => Goto(s, d, Releasing)
    case Write(_) => Goto(s, d, Written)
    case WriteFails(_) => Goto(s, d, Removing)
    case Register(_) => Goto(s, d, Registered).(running := s.running[c.home(d) := d])
    case Start(_) => Goto(s, d, Executing)
    case Exit(_) => Goto(s, d, Unregistering)
    case Timeout(_) => s.(cancelled := s.cancelled + {(d, TimedOut)})
    case Unregister(_) => Goto(s, d, Cancelling).(running := s.running - {c.home(d)})
    case CancelOwn(_) => Goto(s, d, Removing).(cancelled := s.cancelled + {(d, Ended)})
    case Remove(_) => Goto(s, d, Releasing)
    case Release(_) => Goto(s, d, Finished).(holder := None, released := s.released + multiset{d})
  }

  /** The state after an interleaving, None when some action of it cannot happen where it stands. */
  function After(c: Config, acts: seq<Action>): Option<State> {
    if acts == [] then Some(INIT)
    else
      match After(c, acts[..|acts| - 1])
      case None => None
      case Some(s) => if Enabled(c, s, acts[|acts| - 1]) then Some(Do(c, s, acts[|acts| - 1])) else None
  }

  predicate Leads(c: Config, acts: seq<Action>, s: State) {
    After(c, acts) == Some(s)
  }

  ghost predicate Reachable(c: Config, s: State) {
    exists acts :: Leads(c, acts, s)
  }

  // ----- the invariant -----

  /** The stretch of a delivery's life in which it owns the lock. */
  predicate Owns(pc: Pc) {
    || pc.Accepted? || pc.Staged? || pc.Written? || pc.Registered? || pc.Executing?
    || pc.Unregistering? || pc.Cancelling? || pc.Removing? || pc.Releasing?
  }

  ghost predicate LockMatches(s: State) {
    forall d :: Owns(PcOf(s, d)) <==> s.holder == Some(d)
  }

  /** running is set exactly between Register and Unregister, by a run of that process. */
  ghost predicate HandleMatches(c: Config, s: State) {
    && (forall r :: r in s.running ==> c.home(s.running[r]) == r && HasContext(PcOf(s, s.running[r])))
    && (forall d :: HasContext(PcOf(s, d)) ==> c.home(d) in s.running && s.running[c.home(d)] == d)
  }

  /** A handle belongs to the run that held the lock when it was read, also after it has been used. */
  ghost predicate StopsAimed(s: State) {
    && (forall d :: PcOf(s, d).Stopping? && PcOf(s, d).stop.Some? ==> PcOf(s, d).heldBy == PcOf(s, d).stop)
    && (forall x :: x in s.cancelled && x.1.StoppedBy? ==> x.1.heldBy == Some(x.0))
  }

  ghost predicate LockCounted(s: State) {
    forall d ::
      && s.acquired[d] == (if Owns(PcOf(s, d)) || PcOf(s, d).Finished? then 1 else 0)
      && s.released[d] == (if PcOf(s, d).Finished? then 1 else 0)
  }

  ghost predicate Inv(c: Config, s: State) {
    LockMatches(s) && HandleMatches(c, s) && StopsAimed(s) && LockCounted(s)
  }

  /** An action moves the delivery that takes it, and no other. */
  lemma OthersStay(c: Config, s: State, a: Action, d: Delivery)
    requires Enabled(c, s, a)
    ensures d != a.d ==> PcOf(Do(c, s, a), d) == PcOf(s, d)
  {
  }

  lemma LockStep(c: Config, s: State, a: Action)
    requires Enabled(c, s, a) && LockMatches(s)
    ensures LockMatches(Do(c, s, a))
  {
    var s' := Do(c, s, a);
    forall d ensures Owns(PcOf(s', d)) <==> s'.holder == Some(d) {
      OthersStay(c, s, a, d);
      assert Owns(PcOf(s, d)) <==> s.holder == Some(d);
      assert Owns(PcOf(s, a.d)) <==> s.holder == Some(a.d);
    }
  }

  lemma HandleStep(c: Config, s: State, a: Action)
    requires Enabled(c, s, a) && LockMatches(s) && HandleMatches(c, s)
    ensures HandleMatches(c, Do(c, s, a))
  {
    var s' := Do(c, s, a);
    assert Owns(PcOf(s, a.d)) <==> s.holder == Some(a.d);
    forall d | HasContext(PcOf(s', d)) ensures c.home(d) in s'.running && s'.running[c.home(d)] == d {
      assert Owns(PcOf(s, d)) <==> s.holder == Some(d);
    }
    forall r | r in s'.running ensures c.home(s'.running[r]) == r && HasContext(PcOf(s', s'.running[r])) {
      assert r in s.running ==> (Owns(PcOf(s, s.running[r])) <==> s.holder == Some(s.running[r]));
    }
  }

  lemma AimStep(c: Config, s: State, a: Action)
    requires Enabled(c, s, a) && LockMatches(s) && HandleMatches(c, s) && StopsAimed(s)
    ensures StopsAimed(Do(c, s, a))
  {
    var s' := Do(c, s, a);
    forall d | PcOf(s', d).Stopping? && PcOf(s', d).stop.Some? ensures PcOf(s', d).heldBy == PcOf(s', d).stop {
      if a.ReadHandle? && a.d == d {
        assert c.home(d) in s.running && PcOf(s', d) == Stopping(Some(s.running[c.home(d)]), s.holder);
        var i := s.running[c.home(d)];
        assert HasContext(PcOf(s, i));
        assert Owns(PcOf(s, i)) <==> s.holder == Some(i);
      } else {
        assert PcOf(s', d) == PcOf(s, d);
      }
    }
  }

  lemma CountStep(c: Config, s: State, a: Action)
    requires Enabled(c, s, a) && LockCounted(s)
    ensures LockCounted(Do(c, s, a))
  {
    var s' := Do(c, s, a);
    forall d
      ensures s'.acquired[d] == (if Owns(PcOf(s', d)) || PcOf(s', d).Finished? then 1 else 0)
      ensures s'.released[d] == (if PcOf(s', d).Finished? then 1 else 0)
    {
      OthersStay(c, s, a, d);
      assert s.acquired[d] == (if Owns(PcOf(s, d)) || PcOf(s, d).Finished? then 1 else 0);
    }
  }

  lemma InvStep(c: Config, s: State, a: Action)
    requires Enabled(c, s, a) && Inv(c, s)
    ensures Inv(c, Do(c, s, a))
  {
    LockStep(c, s, a);
    HandleStep(c, s, a);
    AimStep(c, s, a);
    CountStep(c, s, a);
  }

  lemma {:induction false} RunsKeepInv(c: Config, acts: seq<Action>, s: State)
    requires Leads(c, acts, s)
    ensures Inv(c, s)
  {
    if acts != [] {
      var k := |acts| - 1;
      var s0 := After(c, acts[..k]).value;
      RunsKeepInv(c, acts[..k], s0);
      InvStep(c, s0, acts[k]);
    }
  }

  // ----- what it guarantees -----

  /** At most one pipeline executes, over all processes. */
  lemma OnePipeline(c: Config, s: State, d1: Delivery, d2: Delivery)
    requires Reachable(c, s) && PcOf(s, d1).Executing? && PcOf(s, d2).Executing?
    ensures d1 == d2
  {
    var acts :| Leads(c, acts, s);
    RunsKeepInv(c, acts, s);
    assert Owns(PcOf(s, d1)) <==> s.holder == Some(d1);
    assert Owns(PcOf(s, d2)) <==> s.holder == Some(d2);
  }

  /** The handle is only ever that of the run holding the lock, so at most one process has one. */
  lemma HandleIsHolders(c: Config, s: State, r: Process)
    requires Reachable(c, s) && r in s.running
    ensures s.holder == Some(s.running[r]) && s.running.Keys == {r}
  {
    var acts :| Leads(c, acts, s);
    RunsKeepInv(c, acts, s);
    forall q | q in s.running ensures q == r {
      assert Owns(PcOf(s, s.running[q])) <==> s.holder == Some(s.running[q]);
      assert Owns(PcOf(s, s.running[r])) <==> s.holder == Some(s.running[r]);
    }
    assert Owns(PcOf(s, s.running[r])) <==> s.holder == Some(s.running[r]);
  }

  /** Clearing the handle erases the run's own, releasing the lock releases its own. */
  lemma DeferredActsOnOwn(c: Config, s: State, a: Action)
    requires Reachable(c, s) && Enabled(c, s, a)
    ensures a.Unregister? ==> c.home(a.d) in s.running && s.running[c.home(a.d)] == a.d
    ensures a.Register? ==> s.running == map[]
    ensures a.Release? ==> s.holder == Some(a.d) && s.running == map[]
  {
    var acts :| Leads(c, acts, s);
    RunsKeepInv(c, acts, s);
    assert Owns(PcOf(s, a.d)) <==> s.holder == Some(a.d);
    forall r | r in s.running && Owns(PcOf(s, a.d)) ensures HasContext(PcOf(s, a.d)) {
      assert Owns(PcOf(s, s.running[r])) <==> s.holder == Some(s.running[r]);
    }
  }

  /** A displacing delivery only ever stops the run that held the lock when it read the handle. */
  lemma StopHitsTheHolder(c: Config, s: State, target: Delivery, stopper: Delivery, heldBy: Option<Delivery>)
    requires Reachable(c, s) && (target, StoppedBy(stopper, heldBy)) in s.cancelled
    ensures heldBy == Some(target)
  {
    var acts :| Leads(c, acts, s);
    RunsKeepInv(c, acts, s);
    var x := (target, StoppedBy(stopper, heldBy));
    assert x in s.cancelled && x.1.StoppedBy?;
  }

  /**
   A displacing delivery gets hold of the run in progress exactly when that run is one of its own process and past
   registering its handle; a holder of another process, or one still starting or already winding down, it only
   waits for.
   */
  lemma HandleFoundExactlyWhen(c: Config, s: State, d: Delivery, h: Delivery)
    requires Reachable(c, s) && s.holder == Some(h) && Enabled(c, s, ReadHandle(d))
    ensures PcOf(Do(c, s, ReadHandle(d)), d).stop == Some(h) <==> c.home(h) == c.home(d) && HasContext(PcOf(s, h))
    ensures PcOf(Do(c, s, ReadHandle(d)), d).stop in {None, Some(h)}
  {
    var acts :| Leads(c, acts, s);
    RunsKeepInv(c, acts, s);
    if c.home(d) in s.running { HandleIsHolders(c, s, c.home(d)); }
  }

  /**
   Locks are conserved on every path: a delivery answered 202 acquired exactly once and has released at
   most once, exactly once when finished; a rejected or waiting one never acquired.
   */
  lemma LockReleasedOnce(c: Config, s: State, d: Delivery)
    requires Reachable(c, s)
    ensures s.acquired[d] <= 1 && s.released[d] <= s.acquired[d]
    ensures PcOf(s, d).Finished? ==> s.acquired[d] == 1 && s.released[d] == 1
    ensures PcOf(s, d).Rejected? || PcOf(s, d).Unseen? ==> s.acquired[d] == 0
    ensures s.acquired[d] - s.released[d] == if s.holder == Some(d) then 1 else 0
  {
    var acts :| Leads(c, acts, s);
    RunsKeepInv(c, acts, s);
    assert Owns(PcOf(s, d)) <==> s.holder == Some(d);
  }

  ghost predicate DisplacingOnly(c: Config, s: State) {
    forall d ::
      && (PcOf(s, d) == Rejected(Conflict409) ==> !c.displaces(c.home(d)))
      && (PcOf(s, d).Displacing? || PcOf(s, d).Stopping? || PcOf(s, d).Polling? ==> c.displaces(c.home(d)))
  }

  lemma DisplacingStep(c: Config, s: State, a: Action)
    requires Enabled(c, s, a) && DisplacingOnly(c, s)
    ensures DisplacingOnly(c, Do(c, s, a))
  {
    var s' := Do(c, s, a);
    forall d
      ensures PcOf(s', d) == Rejected(Conflict409) ==> !c.displaces(c.home(d))
      ensures PcOf(s', d).Displacing? || PcOf(s', d).Stopping? || PcOf(s', d).Polling? ==> c.displaces(c.home(d))
    {
      OthersStay(c, s, a, d);
      assert PcOf(s, d).Displacing? || PcOf(s, d).Stopping? || PcOf(s, d).Polling? ==> c.displaces(c.home(d));
    }
  }

  /** A 409 only ever comes from a process that rejects; one that displaces answers 202 or 500. */
  lemma {:induction false} ConflictOnlyWithoutDisplacing(c: Config, acts: seq<Action>, s: State)
    requires Leads(c, acts, s)
    ensures DisplacingOnly(c, s)
  {
    if acts != [] {
      var k := |acts| - 1;
      var s0 := After(c, acts[..k]).value;
      ConflictOnlyWithoutDisplacing(c, acts[..k], s0);
      DisplacingStep(c, s0, acts[k]);
    }
  }

  // ----- stops and cancellations, over interleavings -----

  /** The state before the k-th action. */
  function At(c: Config, acts: seq<Action>, k: nat): Option<State>
    requires k <= |acts|
  {
    After(c, acts[..k])
  }

  lemma AtNext(c: Config, acts: seq<Action>, k: nat)
    requires k < |acts| && At(c, acts, k + 1).Some?
    ensures At(c, acts, k).Some? && Enabled(c, At(c, acts, k).value, acts[k])
    ensures At(c, acts, k + 1).value == Do(c, At(c, acts, k).value, acts[k])
  {
    assert acts[..k + 1][..k] == acts[..k];
  }

  lemma {:induction false} AtSome(c: Config, acts: seq<Action>, k: nat)
    requires k <= |acts| && After(c, acts).Some?
    ensures At(c, acts, k).Some?
    decreases |acts| - k
  {
    if k == |acts| {
      assert acts[..k] == acts;
    } else {
      AtSome(c, acts, k + 1);
      AtNext(c, acts, k);
    }
  }

  lemma AtInv(c: Config, acts: seq<Action>, k: nat)
    requires k <= |acts| && At(c, acts, k).Some?
    ensures Inv(c, At(c, acts, k).value) && Reachable(c, At(c, acts, k).value)
  {
    assert Leads(c, acts[..k], At(c, acts, k).value);
    RunsKeepInv(c, acts[..k], At(c, acts, k).value);
  }

  /** At step i delivery d reads the handle of h, a run of its own process that holds the lock. */
  ghost predicate ReadsHolder(c: Config, acts: seq<Action>, i: nat, d: Delivery, h: Delivery)
    requires i < |acts| && At(c, acts, i).Some?
  {
    var s := At(c, acts, i).value;
    acts[i] == ReadHandle(d) && s.holder == Some(h) && c.home(h) == c.home(d) && HasContext(PcOf(s, h))
  }

  /** Having read h's handle, d is about to stop h or has stopped it. */
  predicate AboutToOrDid(s: State, d: Delivery, h: Delivery, acted: bool) {
    if acted then (h, StoppedBy(d, Some(h))) in s.cancelled else PcOf(s, d) == Stopping(Some(h), Some(h))
  }

  lemma CancelledGrows(c: Config, s: State, a: Action)
    requires Enabled(c, s, a)
    ensures s.cancelled <= Do(c, s, a).cancelled
  {
  }

  lemma StopStep(c: Config, s: State, a: Action, d: Delivery, h: Delivery, acted: bool)
    requires Enabled(c, s, a) && AboutToOrDid(s, d, h, acted)
    ensures AboutToOrDid(Do(c, s, a), d, h, acted || a == CallStop(d))
  {
    CancelledGrows(c, s, a);
    OthersStay(c, s, a, d);
  }

  lemma {:induction false} ReadThenStops(c: Config, acts: seq<Action>, i: nat, k: nat, d: Delivery, h: Delivery)
    requires i < k <= |acts| && At(c, acts, i).Some? && ReadsHolder(c, acts, i, d, h) && At(c, acts, k).Some?
    ensures AboutToOrDid(At(c, acts, k).value, d, h, CallStop(d) in acts[i + 1..k])
    decreases k
  {
    var p := k - 1;
    AtNext(c, acts, p);
    if p == i {
      AtInv(c, acts, i);
      HandleFoundExactlyWhen(c, At(c, acts, i).value, d, h);
      assert acts[i + 1..k] == [];
    } else {
      ReadThenStops(c, acts, i, p, d, h);
      StopStep(c, At(c, acts, p).value, acts[p], d, h, CallStop(d) in acts[i + 1..p]);
      assert acts[i + 1..k] == acts[i + 1..p] + [acts[p]];
    }
  }

  /**
   A displaced run is stopped: once a delivery has read the handle of a run of its own process that held the
   lock, its stop cancels that run, and it stays cancelled.
   */
  lemma StopIsDelivered(c: Config, acts: seq<Action>, i: nat, j: nat, k: nat, d: Delivery, h: Delivery)
    requires i < j < k <= |acts| && At(c, acts, i).Some? && ReadsHolder(c, acts, i, d, h)
    requires acts[j] == CallStop(d) && At(c, acts, k).Some?
    ensures (h, StoppedBy(d, Some(h))) in At(c, acts, k).value.cancelled
  {
    ReadThenStops(c, acts, i, k, d, h);
    assert acts[i + 1..k][j - (i + 1)] == CallStop(d);
  }

  /** At some step before k, d read the handle of h while h held the lock. */
  ghost predicate ReadBefore(c: Config, acts: seq<Action>, k: nat, d: Delivery, h: Delivery)
    requires k <= |acts|
  {
    exists i: nat :: i < k && At(c, acts, i).Some? && ReadsHolder(c, acts, i, d, h)
  }

  lemma ReadBeforeGrows(c: Config, acts: seq<Action>, k: nat, d: Delivery, h: Delivery)
    requires k < |acts| && ReadBefore(c, acts, k, d, h)
    ensures ReadBefore(c, acts, k + 1, d, h)
  {
    var i: nat :| i < k && At(c, acts, i).Some? && ReadsHolder(c, acts, i, d, h);
  }

  /** A delivery about to stop a run has read its handle. */
  lemma {:induction false} StoppingHasRead(c: Config, acts: seq<Action>, k: nat, d: Delivery, h: Delivery, heldBy: Option<Delivery>)
    requires k <= |acts| && At(c, acts, k).Some? && PcOf(At(c, acts, k).value, d) == Stopping(Some(h), heldBy)
    ensures heldBy == Some(h) && ReadBefore(c, acts, k, d, h)
  {
    if k > 0 {
      var p := k - 1;
      AtNext(c, acts, p);
      var s := At(c, acts, p).value;
      OthersStay(c, s, acts[p], d);
      if acts[p] == ReadHandle(d) {
        AtInv(c, acts, p);
        HandleIsHolders(c, s, c.home(d));
        assert ReadsHolder(c, acts, p, d, h);
      } else {
        StoppingHasRead(c, acts, p, d, h, heldBy);
        ReadBeforeGrows(c, acts, p, d, h);
      }
    }
  }

  /** Why x is cancelled, told by the actions before step k. */
  ghost predicate CancelledFor(c: Config, acts: seq<Action>, k: nat, x: (Delivery, Cause))
    requires k <= |acts|
  {
    match x.1
    case TimedOut => Timeout(x.0) in acts[..k]
    case Ended => CancelOwn(x.0) in acts[..k]
    case StoppedBy(d, heldBy) => heldBy == Some(x.0) && CallStop(d) in acts[..k] && ReadBefore(c, acts, k, d, x.0)
  }

  lemma CancelledForGrows(c: Config, acts: seq<Action>, k: nat, x: (Delivery, Cause))
    requires k < |acts| && CancelledFor(c, acts, k, x)
    ensures CancelledFor(c, acts, k + 1, x)
  {
    assert acts[..k + 1] == acts[..k] + [acts[k]];
    if x.1.StoppedBy? { ReadBeforeGrows(c, acts, k, x.1.stopper, x.0); }
  }

  /** What one action adds to the cancelled contexts. */
  lemma CancelsOnly(c: Config, s: State, a: Action, x: (Delivery, Cause))
    requires Enabled(c, s, a) && x in Do(c, s, a).cancelled && x !in s.cancelled
    ensures match x.1
            case TimedOut => a == Timeout(x.0)
            case Ended => a == CancelOwn(x.0)
            case StoppedBy(d, heldBy) => a == CallStop(d) && PcOf(s, d) == Stopping(Some(x.0), heldBy)
  {
  }

  /** Nothing is cancelled but by its own timeout, its own end, or a delivery that read its handle as it held the lock. */
  lemma {:induction false} CancelledOnlyFor(c: Config, acts: seq<Action>, k: nat, x: (Delivery, Cause))
    requires k <= |acts| && At(c, acts, k).Some? && x in At(c, acts, k).value.cancelled
    ensures CancelledFor(c, acts, k, x)
  {
    if k > 0 {
      var p := k - 1;
      AtNext(c, acts, p);
      var s := At(c, acts, p).value;
      if x in s.cancelled {
        CancelledOnlyFor(c, acts, p, x);
        CancelledForGrows(c, acts, p, x);
      } else {
        CancelsOnly(c, s, acts[p], x);
        assert acts[..k] == acts[..p] + [acts[p]];
        if x.1.StoppedBy? {
          StoppingHasRead(c, acts, p, x.1.stopper, x.0, x.1.heldBy);
          ReadBeforeGrows(c, acts, p, x.1.stopper, x.0);
        }
      }
    }
  }

  lemma {:induction false} CancelledStays(c: Config, acts: seq<Action>, j: nat, k: nat, x: (Delivery, Cause))
    requires j <= k <= |acts| && At(c, acts, j).Some? && At(c, acts, k).Some? && x in At(c, acts, j).value.cancelled
    ensures x in At(c, acts, k).value.cancelled
    decreases k
  {
    if j < k {
      AtNext(c, acts, k - 1);
      CancelledStays(c, acts, j, k - 1, x);
      CancelledGrows(c, At(c, acts, k - 1).value, acts[k - 1]);
    }
  }

  /** A timeout and a run's own end each cancel its context, for good. */
  lemma TimeoutAndEndCancel(c: Config, acts: seq<Action>, j: nat, k: nat)
    requires j < k <= |acts| && At(c, acts, k).Some?
    ensures acts[j].Timeout? ==> (acts[j].d, TimedOut) in At(c, acts, k).value.cancelled
    ensures acts[j].CancelOwn? ==> (acts[j].d, Ended) in At(c, acts, k).value.cancelled
  {
    assert acts[..k][..j + 1] == acts[..j + 1] && acts[..k][..j] == acts[..j];
    AtSome(c, acts[..k], j + 1);
    AtNext(c, acts, j);
    if acts[j].Timeout? { CancelledStays(c, acts, j + 1, k, (acts[j].d, TimedOut)); }
    if acts[j].CancelOwn? { CancelledStays(c, acts, j + 1, k, (acts[j].d, Ended)); }
  }

  /**
   A run is stopped by a delivery exactly when that delivery read the run's handle as it held the lock, in the same
   process, and then called it.
   */
  lemma StoppedExactly(c: Config, acts: seq<Action>, s: State, d: Delivery, h: Delivery)
    requires After(c, acts) == Some(s)
    ensures (h, StoppedBy(d, Some(h))) in s.cancelled <==>
            exists i: nat, j: nat :: i < j < |acts| && At(c, acts, i).Some? && ReadsHolder(c, acts, i, d, h) && acts[j] == CallStop(d)
  {
    var n := |acts|;
    assert acts[..n] == acts;
    if i: nat, j: nat :| i < j < n && At(c, acts, i).Some? && ReadsHolder(c, acts, i, d, h) && acts[j] == CallStop(d) {
      StopIsDelivered(c, acts, i, j, n, d, h);
    }
    if (h, StoppedBy(d, Some(h))) in s.cancelled { StoppedAfterReading(c, acts, n, d, h); }
  }

  lemma {:induction false} StoppedAfterReading(c: Config, acts: seq<Action>, k: nat, d: Delivery, h: Delivery)
    requires k <= |acts| && At(c, acts, k).Some? && (h, StoppedBy(d, Some(h))) in At(c, acts, k).value.cancelled
    ensures exists i: nat, j: nat :: i < j < k && At(c, acts, i).Some? && ReadsHolder(c, acts, i, d, h) && acts[j] == CallStop(d)
  {
    if k > 0 {
      var p := k - 1;
      AtNext(c, acts, p);
      var s := At(c, acts, p).value;
      var x := (h, StoppedBy(d, Some(h)));
      if x in s.cancelled {
        StoppedAfterReading(c, acts, p, d, h);
      } else {
        CancelsOnly(c, s, acts[p], x);
        StoppingHasRead(c, acts, p, d, h, Some(h));
        var i: nat :| i < p && At(c, acts, i).Some? && ReadsHolder(c, acts, i, d, h);
        assert acts[p] == CallStop(d);
      }
    }
  }
}
