/**
 The notifier as interleaved steps: the engine emitting, one worker per destination, the recording
 worker, and Flush closing the queues. Each queue is the bounded drop-rather-than-block queue of
 internal/sink: full drops and counts, closed drops silently.
 */
module Notifier {
  import opened Wrappers

  const QUEUE_DEPTH: nat := 4096
  const OWN_TYPES: set<string> := {"notify.delivered", "notify.failed", "notify.dropped"}

  datatype Event = Event(seqNo: nat, typ: string)

  datatype Kind = Delivered | Undelivered | Dropped

  /** One delivery's result; `about` is the event it was about. */
  datatype Outcome = Outcome(dest: nat, about: Event, kind: Kind)

  function TypeOf(k: Kind): string {
    match k
    case Delivered => "notify.delivered"
    case Undelivered => "notify.failed"
    case Dropped => "notify.dropped"
  }

  // ----- the queue -----

  datatype Queue<T> = Queue(items: seq<T>, closed: bool, dropped: nat)

  datatype Answer = Taken | Full | Shut

  function Offer<T>(q: Queue<T>): Answer {
    if q.closed then Shut else if |q.items| >= QUEUE_DEPTH then Full else Taken
  }

  /** What a queue looks like after something was offered to it. */
  function Offering<T>(q: Queue<T>, x: T): Queue<T> {
    match Offer(q)
    case Taken => q.(items := q.items + [x])
    case Full => q.(dropped := q.dropped + 1)
    case Shut => q
  }

  // ----- state -----

  /** A destination: its queue and loss count, and the fate of every event it wanted so far. */
  datatype Dest = Dest(
    q: Queue<Event>, busy: Option<Event>, losses: nat,
    wanted: multiset<Event>, skipped: multiset<Event>, delivered: multiset<Event>, failed: multiset<Event>,
    dropped: multiset<Event>, late: multiset<Event>)

  /** The reporting pipeline, and where every outcome handed to report has got to. */
  datatype Pipe = Pipe(
    q: Queue<Outcome>, recording: Option<Outcome>,
    produced: multiset<Outcome>,    // every outcome handed to report
    ledger: multiset<Outcome>,      // those the run's ledger took
    unrecorded: multiset<Outcome>,  // those kept for the shutdown report
    lost: multiset<Outcome>,        // those a full report queue dropped
    unheard: multiset<Outcome>)     // those that came after the report queue closed

  /** `emitted` counts the events other than notify.* that reached Emit. */
  datatype State = State(dests: seq<Dest>, pipe: Pipe, emitted: nat, appender: bool, isSealed: bool)

  /** Which destination wants which event types. */
  type Wants = (nat, string) -> bool

  const NO_EVENTS: multiset<Event> := multiset{}
  const NO_OUTCOMES: multiset<Outcome> := multiset{}
  const IDLE := Dest(Queue([], false, 0), None, 0, NO_EVENTS, NO_EVENTS, NO_EVENTS, NO_EVENTS, NO_EVENTS, NO_EVENTS)

  const NO_REPORTS := Pipe(Queue([], false, 0), None, NO_OUTCOMES, NO_OUTCOMES, NO_OUTCOMES, NO_OUTCOMES, NO_OUTCOMES)

  function Init(n: nat): State {
    State(seq(n, _ => IDLE), NO_REPORTS, 0, false, false)
  }

  // ----- steps -----

  function Report(p: Pipe, o: Outcome): Pipe {
    var p' := p.(q := Offering(p.q, o), produced := p.produced + multiset{o});
    match Offer(p.q)
    case Taken => p'
    case Full => p'.(lost := p.lost + multiset{o})
    case Shut => p'.(unheard := p.unheard + multiset{o})
  }

  /** A destination after one more event it wants is offered to its queue. */
  function Offered(d: Dest, e: Event): Dest {
    var d' := d.(wanted := d.wanted + multiset{e}, q := Offering(d.q, e));
    match Offer(d.q)
    case Taken => d'
    case Full => d'.(losses := d.losses + 1, dropped := d.dropped + multiset{e})
    case Shut => d'.(late := d.late + multiset{e})
  }

  /** Every destination that wants the event is offered it; each touches only its own queue. */
  function OfferAll(w: Wants, ds: seq<Dest>, e: Event): seq<Dest> {
    seq(|ds|, j requires 0 <= j < |ds| => if w(j, e.typ) then Offered(ds[j], e) else ds[j])
  }

  predicate Drops(w: Wants, ds: seq<Dest>, e: Event, j: nat) {
    j < |ds| && w(j, e.typ) && Offer(ds[j].q).Full?
  }

  /** The drops among the first n destinations are reported at once, in order. */
  function ReportDrops(w: Wants, ds: seq<Dest>, p: Pipe, e: Event, n: nat): Pipe {
    if n == 0 then p
    else
      var p' := ReportDrops(w, ds, p, e, n - 1);
      if Drops(w, ds, e, n - 1) then Report(p', Outcome(n - 1, e, Dropped)) else p'
  }

  function Emit(w: Wants, s: State, e: Event): State {
    if e.typ in OWN_TYPES then s
    else s.(dests := OfferAll(w, s.dests, e), pipe := ReportDrops(w, s.dests, s.pipe, e, |s.dests|), emitted := s.emitted + 1)
  }

  /** Emit as the engine runs it: one pass over the destinations, a drop seen in the queue's own counter. */
  method EmitInline(w: Wants, s: State, e: Event) returns (s': State)
    ensures s' == Emit(w, s, e)
  {
    if e.typ in OWN_TYPES { return s; }
    var ds: seq<Dest> := [];
    var p := s.pipe;
    for j := 0 to |s.dests|
      invariant ds == OfferAll(w, s.dests, e)[..j]
      invariant p == ReportDrops(w, s.dests, s.pipe, e, j)
    {
      var d := s.dests[j];
      if w(j, e.typ) {
        var before := d.q.dropped;
        d := Offered(d, e);
        LossCounted(s.dests[j], e);
        if d.q.dropped - before > 0 {
          p := Report(p, Outcome(j, e, Dropped));
        }
      }
      ds := ds + [d];
    }
    s' := s.(dests := ds, pipe := p, emitted := s.emitted + 1);
  }

  lemma LossCounted(d: Dest, e: Event)
    ensures Offered(d, e).q.dropped - d.q.dropped > 0 <==> Offer(d.q).Full?
  {
  }

  datatype Action =
    | SetAppender
    | Engine(e: Event, final: bool)            // the engine appends e and emits it; final also seals the ledger
    | Take(i: nat)                             // destination i's worker picks up an event
    | Skip(i: nat)                             // and settles it: nothing to say,
    | Settle(i: nat, delivered: bool)          // or delivered, or failed after its attempts
    | Pick                                     // the recording worker picks up an outcome
    | Record(accepted: bool, seqNo: nat)       // and the ledger takes it, or not
    | Close(i: nat)                            // Flush closes destination i's queue
    | CloseReports                             // and last the report queue

  predicate Enabled(s: State, a: Action) {
    match a
    case SetAppender => true
    case Engine(_, _) => !s.isSealed
    case Take(i) => i < |s.dests| && s.dests[i].busy.None? && s.dests[i].q.items != []
    case Skip(i) => i < |s.dests| && s.dests[i].busy.Some?
    case Settle(i, _) => i < |s.dests| && s.dests[i].busy.Some?
    case Pick => s.pipe.recording.None? && s.pipe.q.items != []
    case Record(accepted, _) => s.pipe.recording.Some? && (accepted ==> s.appender && !s.isSealed)
    case Close(i) => i < |s.dests|
    case CloseReports => forall d :: d in s.dests ==> d.q.closed
  }

  function Settled(d: Dest, delivered: bool): Dest
    requires d.busy.Some?
  {
    var e := multiset{d.busy.value};
    if delivered then d.(busy := None, delivered := d.delivered + e) else d.(busy := None, failed := d.failed + e)
  }

  function Do(w: Wants, s: State, a: Action): State
    requires Enabled(s, a)
  {
    match a
    case SetAppender => s.(appender := true)
    case Engine(e, final) => Emit(w, s.(isSealed := final), e)
    case Take(i) =>
      var d := s.dests[i];
      s.(dests := s.dests[i := d.(busy := Some(d.q.items[0]), q := d.q.(items := d.q.items[1..]))])
    case Skip(i) =>
      var d := s.dests[i];
      s.(dests := s.dests[i := d.(busy := None, skipped := d.skipped + multiset{d.busy.value})])
    case Settle(i, delivered) =>
      var d := s.dests[i];
      var o := Outcome(i, d.busy.value, if delivered then Delivered else Undelivered);
      s.(dests := s.dests[i := Settled(d, delivered)], pipe := Report(s.pipe, o))
    case Pick =>
      var p := s.pipe;
      s.(pipe := p.(recording := Some(p.q.items[0]), q := p.q.(items := p.q.items[1..])))
    case Record(accepted, seqNo) =>
      var p, o := s.pipe, s.pipe.recording.value;
      if accepted then
        // The engine appends the outcome and emits it like any other event.
        Emit(w, s.(pipe := p.(recording := None, ledger := p.ledger + multiset{o})), Event(seqNo, TypeOf(o.kind)))
      else s.(pipe := p.(recording := None, unrecorded := p.unrecorded + multiset{o}))
    case Close(i) => s.(dests := s.dests[i := s.dests[i].(q := s.dests[i].q.(closed := true))])
    case CloseReports => s.(pipe := s.pipe.(q := s.pipe.q.(closed := true)))
  }

  function After(w: Wants, n: nat, acts: seq<Action>): Option<State> {
    if acts == [] then Some(Init(n))
    else
      match After(w, n, acts[..|acts| - 1])
      case None => None
      case Some(s) => if Enabled(s, acts[|acts| - 1]) then Some(Do(w, s, acts[|acts| - 1])) else None
  }

  // ----- conservation, one destination -----

  function One<T>(x: Option<T>): multiset<T> {
    if x.Some? then multiset{x.value} else multiset{}
  }

  /** Everything a destination ever wanted is in exactly one place, with multiplicity. */
  ghost predicate Accounted(d: Dest) {
    forall e {:trigger d.wanted[e]} :: d.wanted[e] ==
                d.skipped[e] + d.delivered[e] + d.failed[e] + d.dropped[e] + d.late[e] + multiset(d.q.items)[e] + One(d.busy)[e]
  }

  ghost predicate DestInv(d: Dest, emitted: nat) {
    Accounted(d) && |d.q.items| <= QUEUE_DEPTH && d.q.dropped == d.losses == |d.dropped| && |d.wanted| <= emitted
  }

  lemma OfferedKeeps(d: Dest, e: Event, emitted: nat)
    requires DestInv(d, emitted)
    ensures DestInv(Offered(d, e), emitted + 1)
  {
    OfferedAccounted(d, e);
    assert |Offered(d, e).wanted| == |d.wanted| + 1;
  }

  lemma OfferedAccounted(d: Dest, e: Event)
    requires Accounted(d)
    ensures Accounted(Offered(d, e))
  {
    var d' := Offered(d, e);
    forall x
      ensures d'.wanted[x] ==
              d'.skipped[x] + d'.delivered[x] + d'.failed[x] + d'.dropped[x] + d'.late[x] + multiset(d'.q.items)[x] + One(d'.busy)[x]
    {
      assert d.wanted[x] ==
             d.skipped[x] + d.delivered[x] + d.failed[x] + d.dropped[x] + d.late[x] + multiset(d.q.items)[x] + One(d.busy)[x];
    }
  }

  lemma TakeKeeps(d: Dest, emitted: nat)
    requires DestInv(d, emitted) && d.busy.None? && d.q.items != []
    ensures DestInv(d.(busy := Some(d.q.items[0]), q := d.q.(items := d.q.items[1..])), emitted)
  {
    assert d.q.items == [d.q.items[0]] + d.q.items[1..];
  }

  lemma SettledKeeps(d: Dest, delivered: bool, emitted: nat)
    requires DestInv(d, emitted) && d.busy.Some?
    ensures DestInv(Settled(d, delivered), emitted)
    ensures DestInv(d.(busy := None, skipped := d.skipped + multiset{d.busy.value}), emitted)
  {
  }

  ghost predicate DestsInv(ds: seq<Dest>, emitted: nat) {
    forall j :: 0 <= j < |ds| ==> DestInv(ds[j], emitted)
  }

  lemma EmitDests(w: Wants, ds: seq<Dest>, e: Event, emitted: nat)
    requires DestsInv(ds, emitted)
    ensures DestsInv(OfferAll(w, ds, e), emitted + 1)
  {
    forall j | 0 <= j < |ds| ensures DestInv(OfferAll(w, ds, e)[j], emitted + 1) {
      OfferedKeeps(ds[j], e, emitted);
    }
  }

  lemma DestAt(ds: seq<Dest>, i: nat, d: Dest, emitted: nat)
    requires i < |ds| && DestsInv(ds, emitted) && DestInv(d, emitted)
    ensures DestsInv(ds[i := d], emitted)
  {
  }

  /** One destination's own step: picking up, settling or closing. */
  lemma WorkerStep(w: Wants, s: State, a: Action)
    requires a.Take? || a.Skip? || a.Settle? || a.Close?
    requires Enabled(s, a) && DestInv(s.dests[a.i], s.emitted)
    ensures DestInv(Do(w, s, a).dests[a.i], s.emitted)
    ensures Do(w, s, a).dests == s.dests[a.i := Do(w, s, a).dests[a.i]] && Do(w, s, a).emitted == s.emitted
  {
    var d := s.dests[a.i];
    if a.Take? { TakeKeeps(d, s.emitted); }
    if a.Skip? { SettledKeeps(d, true, s.emitted); }
    if a.Settle? { SettledKeeps(d, a.delivered, s.emitted); }
  }

  lemma StepDests(w: Wants, s: State, a: Action)
    requires Enabled(s, a) && DestsInv(s.dests, s.emitted)
    ensures DestsInv(Do(w, s, a).dests, Do(w, s, a).emitted) && |Do(w, s, a).dests| == |s.dests|
  {
    if a.Engine? && a.e.typ !in OWN_TYPES {
      EmitDests(w, s.dests, a.e, s.emitted);
    } else if a.Take? || a.Skip? || a.Settle? || a.Close? {
      WorkerStep(w, s, a);
      DestAt(s.dests, a.i, Do(w, s, a).dests[a.i], s.emitted);
    } else {
      assert Do(w, s, a).dests == s.dests && Do(w, s, a).emitted == s.emitted;
    }
  }

  // ----- conservation, outcomes -----

  /** Every outcome ever produced is in exactly one place of the reporting pipeline, with multiplicity. */
  ghost predicate PipeInv(p: Pipe) {
    && (forall o {:trigger p.produced[o]} :: p.produced[o] ==
                    p.ledger[o] + p.unrecorded[o] + p.lost[o] + p.unheard[o] + multiset(p.q.items)[o] + One(p.recording)[o])
    && p.q.dropped == |p.lost| && |p.q.items| <= QUEUE_DEPTH
  }

  lemma ReportKeeps(p: Pipe, o: Outcome)
    requires PipeInv(p)
    ensures PipeInv(Report(p, o))
  {
  }

  lemma {:induction false} EmitPipe(w: Wants, ds: seq<Dest>, p: Pipe, e: Event, n: nat)
    requires PipeInv(p)
    ensures PipeInv(ReportDrops(w, ds, p, e, n))
  {
    if n > 0 {
      EmitPipe(w, ds, p, e, n - 1);
      ReportKeeps(ReportDrops(w, ds, p, e, n - 1), Outcome(n - 1, e, Dropped));
    }
  }

  lemma PickKeeps(p: Pipe)
    requires PipeInv(p) && p.recording.None? && p.q.items != []
    ensures PipeInv(p.(recording := Some(p.q.items[0]), q := p.q.(items := p.q.items[1..])))
  {
    assert p.q.items == [p.q.items[0]] + p.q.items[1..];
  }

  lemma RecordKeeps(p: Pipe)
    requires PipeInv(p) && p.recording.Some?
    ensures PipeInv(p.(recording := None, ledger := p.ledger + multiset{p.recording.value}))
    ensures PipeInv(p.(recording := None, unrecorded := p.unrecorded + multiset{p.recording.value}))
  {
  }

  lemma StepPipe(w: Wants, s: State, a: Action)
    requires Enabled(s, a) && PipeInv(s.pipe)
    ensures PipeInv(Do(w, s, a).pipe)
  {
    if a.Engine? && a.e.typ !in OWN_TYPES {
      EmitPipe(w, s.dests, s.pipe, a.e, |s.dests|);
    } else if a.Settle? {
      ReportKeeps(s.pipe, Outcome(a.i, s.dests[a.i].busy.value, if a.delivered then Delivered else Undelivered));
    } else if a.Pick? {
      PickKeeps(s.pipe);
    } else if a.Record? {
      RecordKeeps(s.pipe);
    }
  }

  // ----- the outcomes are exactly the destinations' deliveries, failures and drops -----

  function Fate(d: Dest, k: Kind): multiset<Event> {
    match k
    case Delivered => d.delivered
    case Undelivered => d.failed
    case Dropped => d.dropped
  }

  ghost predicate Matches(ds: seq<Dest>, produced: multiset<Outcome>) {
    forall o: Outcome :: produced[o] == if o.dest < |ds| then Fate(ds[o.dest], o.kind)[o.about] else 0
  }

  /** A destination settles an event, and its outcome is reported. */
  lemma SettleMatches(ds: seq<Dest>, produced: multiset<Outcome>, i: nat, d: Dest, e: Event, k: Kind)
    requires i < |ds| && Matches(ds, produced)
    requires forall k' :: Fate(d, k') == Fate(ds[i], k') + if k' == k then multiset{e} else multiset{}
    ensures Matches(ds[i := d], produced + multiset{Outcome(i, e, k)})
  {
  }

  lemma QuietMatches(ds: seq<Dest>, produced: multiset<Outcome>, i: nat, d: Dest)
    requires i < |ds| && Matches(ds, produced) && forall k :: Fate(d, k) == Fate(ds[i], k)
    ensures Matches(ds[i := d], produced)
  {
  }

  lemma OfferedFate(d: Dest, e: Event, k: Kind)
    ensures Fate(Offered(d, e), k) == Fate(d, k) + if k == Dropped && Offer(d.q).Full? then multiset{e} else multiset{}
  {
  }

  lemma SettledFate(d: Dest, delivered: bool, k: Kind)
    requires d.busy.Some?
    ensures Fate(Settled(d, delivered), k) ==
            Fate(d, k) + if k == (if delivered then Delivered else Undelivered) then multiset{d.busy.value} else multiset{}
  {
  }

  lemma ReportProduces(p: Pipe, o: Outcome)
    ensures Report(p, o).produced == p.produced + multiset{o}
  {
  }

  /** The drops of one event, as outcomes. */
  function DropOutcomes(w: Wants, ds: seq<Dest>, e: Event, n: nat): multiset<Outcome> {
    if n == 0 then multiset{}
    else DropOutcomes(w, ds, e, n - 1) + if Drops(w, ds, e, n - 1) then multiset{Outcome(n - 1, e, Dropped)} else multiset{}
  }

  lemma {:induction false} ReportDropsProduces(w: Wants, ds: seq<Dest>, p: Pipe, e: Event, n: nat)
    ensures ReportDrops(w, ds, p, e, n).produced == p.produced + DropOutcomes(w, ds, e, n)
  {
    if n > 0 {
      ReportDropsProduces(w, ds, p, e, n - 1);
      ReportProduces(ReportDrops(w, ds, p, e, n - 1), Outcome(n - 1, e, Dropped));
    }
  }

  lemma {:induction false} DropOutcomesAre(w: Wants, ds: seq<Dest>, e: Event, n: nat, o: Outcome)
    ensures DropOutcomes(w, ds, e, n)[o] ==
            if o.dest < n && Drops(w, ds, e, o.dest) && o.about == e && o.kind == Dropped then 1 else 0
  {
    if n > 0 { DropOutcomesAre(w, ds, e, n - 1, o); }
  }

  lemma EmitMatches(w: Wants, ds: seq<Dest>, p: Pipe, e: Event)
    requires Matches(ds, p.produced)
    ensures Matches(OfferAll(w, ds, e), ReportDrops(w, ds, p, e, |ds|).produced)
  {
    ReportDropsProduces(w, ds, p, e, |ds|);
    forall o: Outcome
      ensures ReportDrops(w, ds, p, e, |ds|).produced[o] ==
              if o.dest < |ds| then Fate(OfferAll(w, ds, e)[o.dest], o.kind)[o.about] else 0
    {
      DropOutcomesAre(w, ds, e, |ds|, o);
      if o.dest < |ds| { OfferedFate(ds[o.dest], e, o.kind); }
    }
  }

  lemma WorkerMatches(w: Wants, s: State, a: Action)
    requires a.Take? || a.Skip? || a.Settle? || a.Close?
    requires Enabled(s, a) && Matches(s.dests, s.pipe.produced)
    ensures Matches(Do(w, s, a).dests, Do(w, s, a).pipe.produced)
  {
    var s', i := Do(w, s, a), a.i;
    var d := s.dests[i];
    if a.Settle? {
      var k := if a.delivered then Delivered else Undelivered;
      forall k' ensures Fate(s'.dests[i], k') == Fate(d, k') + if k' == k then multiset{d.busy.value} else multiset{} {
        SettledFate(d, a.delivered, k');
      }
      ReportProduces(s.pipe, Outcome(i, d.busy.value, k));
      SettleMatches(s.dests, s.pipe.produced, i, s'.dests[i], d.busy.value, k);
    } else {
      forall k ensures Fate(s'.dests[i], k) == Fate(d, k) {}
      QuietMatches(s.dests, s.pipe.produced, i, s'.dests[i]);
    }
  }

  lemma StepMatches(w: Wants, s: State, a: Action)
    requires Enabled(s, a) && Matches(s.dests, s.pipe.produced)
    ensures Matches(Do(w, s, a).dests, Do(w, s, a).pipe.produced)
  {
    if a.Engine? && a.e.typ !in OWN_TYPES {
      EmitMatches(w, s.dests, s.pipe, a.e);
    } else if a.Take? || a.Skip? || a.Settle? || a.Close? {
      WorkerMatches(w, s, a);
    } else {
      assert Do(w, s, a).dests == s.dests && Do(w, s, a).pipe.produced == s.pipe.produced;
    }
  }

  // ----- whole runs -----

  lemma {:induction false} RunKeeps(w: Wants, n: nat, acts: seq<Action>)
    requires After(w, n, acts).Some?
    ensures var s := After(w, n, acts).value;
            |s.dests| == n && DestsInv(s.dests, s.emitted) && PipeInv(s.pipe) && Matches(s.dests, s.pipe.produced)
  {
    if acts != [] {
      var k := |acts| - 1;
      RunKeeps(w, n, acts[..k]);
      var s := After(w, n, acts[..k]).value;
      StepDests(w, s, acts[k]);
      StepPipe(w, s, acts[k]);
      StepMatches(w, s, acts[k]);
    }
  }

  predicate Drained(d: Dest) {
    d.q.closed && d.q.items == [] && d.busy.None?
  }

  /**
   Once a destination has drained, every event it wanted ended exactly once as skipped, delivered,
   failed, dropped for a full queue, or refused by a queue already closed.
   */
  lemma EveryEventSettles(w: Wants, n: nat, acts: seq<Action>, s: State, d: Dest)
    requires After(w, n, acts) == Some(s) && d in s.dests && Drained(d)
    ensures d.wanted == d.skipped + d.delivered + d.failed + d.dropped + d.late && d.losses == |d.dropped|
  {
    RunKeeps(w, n, acts);
    var j :| 0 <= j < |s.dests| && s.dests[j] == d;
    assert DestInv(d, s.emitted);
  }

  /**
   Once the report queue has drained, every outcome is exactly one of appended to the ledger, printed in
   the shutdown report, counted as lost, or (only from a destination abandoned at flush) unheard; and
   the outcomes are exactly the deliveries, failures and drops of the destinations.
   */
  lemma EveryOutcomeAccounted(w: Wants, n: nat, acts: seq<Action>, s: State)
    requires After(w, n, acts) == Some(s) && s.pipe.q.items == [] && s.pipe.recording.None?
    ensures |s.dests| == n
    ensures var p := s.pipe; p.produced == p.ledger + p.unrecorded + p.lost + p.unheard && p.q.dropped == |p.lost|
    ensures forall i: nat, e, k :: i < n ==> s.pipe.produced[Outcome(i, e, k)] == Fate(s.dests[i], k)[e]
  {
    RunKeeps(w, n, acts);
  }

  // ----- no feedback -----

  function Count(d: Dest): nat {
    |d.delivered| + |d.failed| + |d.dropped|
  }

  function Total(ds: seq<Dest>): nat {
    if ds == [] then 0 else Total(ds[..|ds| - 1]) + Count(ds[|ds| - 1])
  }

  lemma {:induction false} TotalUpdate(ds: seq<Dest>, i: nat, d: Dest)
    requires i < |ds|
    ensures Total(ds[i := d]) - Count(d) == Total(ds) - Count(ds[i])
  {
    var k := |ds| - 1;
    if i == k {
      assert ds[i := d][..k] == ds[..k];
    } else {
      TotalUpdate(ds[..k], i, d);
      assert ds[i := d][..k] == ds[..k][i := d];
    }
  }

  lemma OfferedCount(d: Dest, e: Event)
    ensures Count(Offered(d, e)) == Count(d) + if Offer(d.q).Full? then 1 else 0
  {
  }

  lemma {:induction false} OfferAllTotal(w: Wants, ds: seq<Dest>, e: Event)
    ensures Total(OfferAll(w, ds, e)) == Total(ds) + |DropOutcomes(w, ds, e, |ds|)|
  {
    if ds != [] {
      var k := |ds| - 1;
      OfferAllTotal(w, ds[..k], e);
      assert OfferAll(w, ds, e)[..k] == OfferAll(w, ds[..k], e);
      DropOutcomesPrefix(w, ds, e, k);
      OfferedCount(ds[k], e);
    }
  }

  lemma {:induction false} DropOutcomesPrefix(w: Wants, ds: seq<Dest>, e: Event, n: nat)
    requires n < |ds|
    ensures DropOutcomes(w, ds, e, n) == DropOutcomes(w, ds[..|ds| - 1], e, n)
  {
    if n > 0 { DropOutcomesPrefix(w, ds, e, n - 1); }
  }

  lemma SettleTotal(w: Wants, s: State, a: Action)
    requires a.Settle? && Enabled(s, a)
    ensures |Do(w, s, a).pipe.produced| == |s.pipe.produced| + 1 && Total(Do(w, s, a).dests) == Total(s.dests) + 1
  {
    ReportProduces(s.pipe, Outcome(a.i, s.dests[a.i].busy.value, if a.delivered then Delivered else Undelivered));
    TotalUpdate(s.dests, a.i, Settled(s.dests[a.i], a.delivered));
    assert Count(Settled(s.dests[a.i], a.delivered)) == Count(s.dests[a.i]) + 1;
  }

  lemma QuietTotal(w: Wants, s: State, a: Action)
    requires (a.Take? || a.Skip? || a.Close?) && Enabled(s, a)
    ensures Do(w, s, a).pipe.produced == s.pipe.produced && Total(Do(w, s, a).dests) == Total(s.dests)
  {
    var d := Do(w, s, a).dests[a.i];
    assert Do(w, s, a).dests == s.dests[a.i := d] && Count(d) == Count(s.dests[a.i]);
    TotalUpdate(s.dests, a.i, d);
  }

  lemma PipeTotal(w: Wants, s: State, a: Action)
    requires (a.SetAppender? || a.Pick? || a.Record? || a.CloseReports?) && Enabled(s, a)
    ensures Do(w, s, a).pipe.produced == s.pipe.produced && Do(w, s, a).dests == s.dests
  {
  }

  lemma StepTotal(w: Wants, s: State, a: Action)
    requires Enabled(s, a) && |s.pipe.produced| == Total(s.dests)
    ensures |Do(w, s, a).pipe.produced| == Total(Do(w, s, a).dests)
  {
    if a.Engine? && a.e.typ in OWN_TYPES {
      assert Do(w, s, a) == s.(isSealed := a.final);
    } else if a.Engine? {
      OfferAllTotal(w, s.dests, a.e);
      ReportDropsProduces(w, s.dests, s.pipe, a.e, |s.dests|);
    } else if a.Settle? {
      SettleTotal(w, s, a);
    } else if a.Take? || a.Skip? || a.Close? {
      QuietTotal(w, s, a);
    } else {
      PipeTotal(w, s, a);
    }
  }

  lemma {:induction false} NothingSettled(n: nat)
    ensures Total(seq(n, _ => IDLE)) == 0
  {
    if n > 0 {
      NothingSettled(n - 1);
      assert seq(n, _ => IDLE)[..n - 1] == seq(n - 1, _ => IDLE);
    }
  }

  lemma {:induction false} RunTotal(w: Wants, n: nat, acts: seq<Action>)
    requires After(w, n, acts).Some?
    ensures |After(w, n, acts).value.pipe.produced| == Total(After(w, n, acts).value.dests)
  {
    if acts == [] {
      NothingSettled(n);
    } else {
      RunTotal(w, n, acts[..|acts| - 1]);
      StepTotal(w, After(w, n, acts[..|acts| - 1]).value, acts[|acts| - 1]);
    }
  }

  lemma SubsetSmaller<T>(a: multiset<T>, b: multiset<T>)
    requires a <= b
    ensures |a| <= |b|
  {
    assert b == a + (b - a);
  }

  lemma CountWanted(d: Dest, emitted: nat)
    requires DestInv(d, emitted)
    ensures Count(d) <= emitted
  {
    var settled := d.delivered + d.failed + d.dropped;
    forall e ensures settled[e] <= d.wanted[e] {
      assert settled[e] == d.delivered[e] + d.failed[e] + d.dropped[e];
    }
    SubsetSmaller(settled, d.wanted);
  }

  lemma {:induction false} TotalBound(ds: seq<Dest>, emitted: nat)
    requires forall j :: 0 <= j < |ds| ==> Count(ds[j]) <= emitted
    ensures Total(ds) <= |ds| * emitted
  {
    if ds != [] {
      var k := |ds| - 1;
      TotalBound(ds[..k], emitted);
      assert |ds| * emitted == k * emitted + emitted;
    }
  }

  /** No feedback: E events and D destinations produce, and so add to the ledger, at most E * D outcomes. */
  lemma NoFeedback(w: Wants, n: nat, acts: seq<Action>, s: State)
    requires After(w, n, acts) == Some(s)
    ensures |s.pipe.ledger| <= |s.pipe.produced| <= n * s.emitted
  {
    RunKeeps(w, n, acts);
    RunTotal(w, n, acts);
    forall j | 0 <= j < n ensures Count(s.dests[j]) <= s.emitted { CountWanted(s.dests[j], s.emitted); }
    TotalBound(s.dests, s.emitted);
    SubsetSmaller(s.pipe.ledger, s.pipe.produced);
  }

  // ----- outcomes are never notified about -----

  ghost predicate OnlyOthers(wanted: multiset<Event>) {
    forall e :: e in wanted ==> e.typ !in OWN_TYPES
  }

  ghost predicate NothingOwn(ds: seq<Dest>) {
    forall j :: 0 <= j < |ds| ==> OnlyOthers(ds[j].wanted)
  }

  lemma OfferedForeign(d: Dest, e: Event)
    requires e.typ !in OWN_TYPES && OnlyOthers(d.wanted)
    ensures OnlyOthers(Offered(d, e).wanted)
  {
    forall x | x in Offered(d, e).wanted ensures x.typ !in OWN_TYPES {
      assert x in d.wanted || x == e;
    }
  }

  lemma StepForeign(w: Wants, s: State, a: Action)
    requires Enabled(s, a) && NothingOwn(s.dests)
    ensures NothingOwn(Do(w, s, a).dests)
  {
    if a.Engine? && a.e.typ !in OWN_TYPES {
      forall j | 0 <= j < |s.dests| ensures OnlyOthers(Do(w, s, a).dests[j].wanted) {
        OfferedForeign(s.dests[j], a.e);
      }
    } else if a.Take? || a.Skip? || a.Settle? || a.Close? {
      assert Do(w, s, a).dests[a.i].wanted == s.dests[a.i].wanted;
    }
  }

  /**
   No outcome is ever notified about, though the ledger's events, outcomes included, are all emitted: no
   destination, whatever it wants, was ever offered a notify event.
   */
  lemma {:induction false} OwnEventsNeverWanted(w: Wants, n: nat, acts: seq<Action>, s: State)
    requires After(w, n, acts) == Some(s)
    ensures NothingOwn(s.dests)
  {
    if acts != [] {
      var k := |acts| - 1;
      var before := After(w, n, acts[..k]).value;
      OwnEventsNeverWanted(w, n, acts[..k], before);
      StepForeign(w, before, acts[k]);
    }
  }

  // ----- nothing is refused while the run is open -----

  /** Flush comes after the stream is sealed, as Run calls it. */
  predicate FlushAfterSeal(w: Wants, n: nat, acts: seq<Action>) {
    forall k :: 0 <= k < |acts| && acts[k].Close? && After(w, n, acts[..k]).Some? ==> After(w, n, acts[..k]).value.isSealed
  }

  predicate Punctual(d: Dest, isSealed: bool) {
    d.late == multiset{} && (!isSealed ==> !d.q.closed)
  }

  predicate NothingLate(s: State) {
    forall j :: 0 <= j < |s.dests| ==> Punctual(s.dests[j], s.isSealed)
  }

  /** Then no event meets a closed queue, so the four documented fates are the only ones. */
  lemma {:induction false} OrderlyFlush(w: Wants, n: nat, acts: seq<Action>)
    requires After(w, n, acts).Some? && FlushAfterSeal(w, n, acts)
    ensures NothingLate(After(w, n, acts).value)
  {
    if acts != [] {
      var k := |acts| - 1;
      var s, a := After(w, n, acts[..k]).value, acts[k];
      assert FlushAfterSeal(w, n, acts[..k]) by {
        forall j | 0 <= j < k && acts[..k][j].Close? && After(w, n, acts[..k][..j]).Some?
          ensures After(w, n, acts[..k][..j]).value.isSealed
        {
          assert acts[..k][..j] == acts[..j] && acts[j].Close?;
        }
      }
      OrderlyFlush(w, n, acts[..k]);
      LateStep(w, s, a);
    }
  }

  lemma OfferedPunctual(d: Dest, e: Event, isSealed: bool)
    requires Punctual(d, false)
    ensures Punctual(Offered(d, e), isSealed)
  {
  }

  lemma WorkerPunctual(w: Wants, s: State, a: Action)
    requires a.Take? || a.Skip? || a.Settle? || a.Close?
    requires Enabled(s, a) && Punctual(s.dests[a.i], s.isSealed) && (a.Close? ==> s.isSealed)
    ensures Punctual(Do(w, s, a).dests[a.i], s.isSealed)
    ensures Do(w, s, a).dests == s.dests[a.i := Do(w, s, a).dests[a.i]] && Do(w, s, a).isSealed == s.isSealed
  {
  }

  lemma LateStep(w: Wants, s: State, a: Action)
    requires Enabled(s, a) && NothingLate(s) && (a.Close? ==> s.isSealed)
    ensures NothingLate(Do(w, s, a))
  {
    if a.Engine? {
      forall j | 0 <= j < |s.dests| ensures Punctual(Do(w, s, a).dests[j], a.final) {
        assert Punctual(s.dests[j], false);
        OfferedPunctual(s.dests[j], a.e, a.final);
      }
    } else if a.Take? || a.Skip? || a.Settle? || a.Close? {
      WorkerPunctual(w, s, a);
    } else {
      assert Do(w, s, a).dests == s.dests && Do(w, s, a).isSealed == s.isSealed;
    }
  }

  // ----- nothing goes unheard when every destination settles -----

  predicate AllDrained(ds: seq<Dest>) {
    forall j :: 0 <= j < |ds| ==> Drained(ds[j])
  }

  /** Flush waits for every destination to drain before it closes the report queue. */
  predicate NobodyAbandoned(w: Wants, n: nat, acts: seq<Action>) {
    forall k :: 0 <= k < |acts| && acts[k].CloseReports? && After(w, n, acts[..k]).Some? ==>
      AllDrained(After(w, n, acts[..k]).value.dests)
  }

  /** The report queue only closes on destinations that have nothing left to say. */
  predicate Heard(s: State) {
    s.pipe.unheard == multiset{} && (s.pipe.q.closed ==> AllDrained(s.dests))
  }

  lemma {:induction false} DropsHeard(w: Wants, ds: seq<Dest>, p: Pipe, e: Event, n: nat)
    requires p.unheard == multiset{} && (p.q.closed ==> AllDrained(ds))
    ensures var p' := ReportDrops(w, ds, p, e, n); p'.unheard == multiset{} && p'.q.closed == p.q.closed
  {
    if n > 0 { DropsHeard(w, ds, p, e, n - 1); }
  }

  lemma DrainedStays(w: Wants, ds: seq<Dest>, e: Event)
    requires AllDrained(ds)
    ensures AllDrained(OfferAll(w, ds, e))
  {
    forall j | 0 <= j < |ds| ensures Drained(OfferAll(w, ds, e)[j]) {
      assert Drained(ds[j]);
      assert Drained(Offered(ds[j], e));
    }
  }

  lemma WorkerHeard(w: Wants, s: State, a: Action)
    requires (a.Take? || a.Skip? || a.Settle? || a.Close?) && Enabled(s, a) && Heard(s)
    ensures Heard(Do(w, s, a))
  {
    if s.pipe.q.closed { assert Drained(s.dests[a.i]); }
  }

  lemma HeardStep(w: Wants, s: State, a: Action)
    requires Enabled(s, a) && Heard(s) && (a.CloseReports? ==> AllDrained(s.dests))
    ensures Heard(Do(w, s, a))
  {
    if a.Engine? && a.e.typ !in OWN_TYPES {
      DropsHeard(w, s.dests, s.pipe, a.e, |s.dests|);
      if s.pipe.q.closed { DrainedStays(w, s.dests, a.e); }
    } else if a.Take? || a.Skip? || a.Settle? || a.Close? {
      WorkerHeard(w, s, a);
    } else {
      assert Do(w, s, a).dests == s.dests;
    }
  }

  lemma {:induction false} PatientFlush(w: Wants, n: nat, acts: seq<Action>)
    requires After(w, n, acts).Some? && NobodyAbandoned(w, n, acts)
    ensures Heard(After(w, n, acts).value)
  {
    if acts != [] {
      var k := |acts| - 1;
      assert NobodyAbandoned(w, n, acts[..k]) by {
        forall j | 0 <= j < k && acts[..k][j].CloseReports? && After(w, n, acts[..k][..j]).Some?
          ensures AllDrained(After(w, n, acts[..k][..j]).value.dests)
        {
          assert acts[..k][..j] == acts[..j] && acts[j].CloseReports?;
        }
      }
      PatientFlush(w, n, acts[..k]);
      HeardStep(w, After(w, n, acts[..k]).value, acts[k]);
    }
  }

  /**
   The promise of an orderly shutdown: with Flush after the seal and no destination abandoned, every event a
   destination wanted was skipped, delivered, failed or dropped, and every outcome appended, kept for the
   shutdown report or counted lost; each exactly once.
   */
  lemma CleanShutdown(w: Wants, n: nat, acts: seq<Action>, s: State)
    requires After(w, n, acts) == Some(s) && FlushAfterSeal(w, n, acts) && NobodyAbandoned(w, n, acts)
    requires s.pipe.q.closed && s.pipe.q.items == [] && s.pipe.recording.None?
    ensures forall d :: d in s.dests ==> d.wanted == d.skipped + d.delivered + d.failed + d.dropped
    ensures s.pipe.produced == s.pipe.ledger + s.pipe.unrecorded + s.pipe.lost
  {
    OrderlyFlush(w, n, acts);
    PatientFlush(w, n, acts);
    EveryOutcomeAccounted(w, n, acts, s);
    forall d | d in s.dests ensures d.wanted == d.skipped + d.delivered + d.failed + d.dropped {
      EveryEventSettles(w, n, acts, s, d);
    }
  }

  // ----- what a run offered, told by its actions -----

  /** An event the engine appends that is about something else than a notification. */
  predicate Foreign(e: Event) {
    e.typ != "notify.delivered" && e.typ != "notify.failed" && e.typ != "notify.dropped"
  }

  predicate Offers(w: Wants, a: Action, j: nat) {
    a.Engine? && Foreign(a.e) && w(j, a.e.typ)
  }

  /** Every event destination j wants among those the engine appended, in order. */
  function WantedEvents(w: Wants, acts: seq<Action>, j: nat): seq<Event> {
    if acts == [] then []
    else
      var k := |acts| - 1;
      WantedEvents(w, acts[..k], j) + if Offers(w, acts[k], j) then [acts[k].e] else []
  }

  function ForeignEvents(acts: seq<Action>): nat {
    if acts == [] then 0
    else
      var k := |acts| - 1;
      ForeignEvents(acts[..k]) + if acts[k].Engine? && Foreign(acts[k].e) then 1 else 0
  }

  lemma OwnIsNotForeign(e: Event)
    ensures e.typ in OWN_TYPES <==> !Foreign(e)
  {
  }

  /** What one action adds to what destination j was offered, and to the count. */
  lemma StepOffers(w: Wants, s: State, a: Action, j: nat)
    requires Enabled(s, a) && j < |s.dests|
    ensures |Do(w, s, a).dests| == |s.dests|
    ensures Do(w, s, a).dests[j].wanted == s.dests[j].wanted + if Offers(w, a, j) then multiset{a.e} else multiset{}
    ensures Do(w, s, a).emitted == s.emitted + if a.Engine? && Foreign(a.e) then 1 else 0
  {
    if a.Engine? { OwnIsNotForeign(a.e); }
  }

  /** Every wanted event is offered: no event but a notification is kept from a destination that wants its type. */
  lemma {:induction false} EveryWantedIsOffered(w: Wants, n: nat, acts: seq<Action>, s: State, j: nat)
    requires After(w, n, acts) == Some(s) && j < n
    ensures |s.dests| == n && s.dests[j].wanted == multiset(WantedEvents(w, acts, j))
    ensures s.emitted == ForeignEvents(acts)
  {
    if acts != [] {
      var k := |acts| - 1;
      var before := After(w, n, acts[..k]).value;
      EveryWantedIsOffered(w, n, acts[..k], before, j);
      StepOffers(w, before, acts[k], j);
    }
  }

  // ----- first in, first out -----

  /** What destination j's worker picks up in one action. */
  function Picks(s: State, a: Action, j: nat): seq<Event> {
    if a == Take(j) && j < |s.dests| && s.dests[j].q.items != [] then [s.dests[j].q.items[0]] else []
  }

  /** A wanted event that finds room: the queue open, with fewer than 4096 events in it. */
  function Admits(w: Wants, s: State, a: Action, j: nat): seq<Event> {
    if Offers(w, a, j) && j < |s.dests| && !s.dests[j].q.closed && |s.dests[j].q.items| < 4096 then [a.e] else []
  }

  /** A wanted event that finds the queue open and full. */
  function Overflows(w: Wants, s: State, a: Action, j: nat): multiset<Event> {
    if Offers(w, a, j) && j < |s.dests| && !s.dests[j].q.closed && |s.dests[j].q.items| >= 4096 then multiset{a.e}
    else multiset{}
  }

  /** Everything picked up, admitted and lost so far, by destination j. */
  datatype Traffic = Traffic(picked: seq<Event>, admitted: seq<Event>, overflowed: multiset<Event>)

  function Traffics(w: Wants, n: nat, acts: seq<Action>, j: nat): Traffic {
    if acts == [] then Traffic([], [], multiset{})
    else
      var k := |acts| - 1;
      var t := Traffics(w, n, acts[..k], j);
      match After(w, n, acts[..k])
      case None => t
      case Some(s) =>
        Traffic(t.picked + Picks(s, acts[k], j), t.admitted + Admits(w, s, acts[k], j),
                t.overflowed + Overflows(w, s, acts[k], j))
  }

  lemma EngineDest(w: Wants, s: State, a: Action, j: nat)
    requires a.Engine? && Enabled(s, a) && j < |s.dests|
    ensures Do(w, s, a).dests[j] == if Offers(w, a, j) then Offered(s.dests[j], a.e) else s.dests[j]
  {
    OwnIsNotForeign(a.e);
  }

  lemma OfferedQueue(d: Dest, e: Event)
    ensures Offered(d, e).q.items == d.q.items + if !d.q.closed && |d.q.items| < 4096 then [e] else []
    ensures Offered(d, e).dropped == d.dropped + if !d.q.closed && |d.q.items| >= 4096 then multiset{e} else multiset{}
    ensures Offered(d, e).delivered == d.delivered && Offered(d, e).failed == d.failed
  {
    assert d.q.items + [] == d.q.items;
  }

  lemma EngineQueue(w: Wants, s: State, a: Action, j: nat)
    requires a.Engine? && Enabled(s, a) && j < |s.dests|
    ensures var d, d' := s.dests[j], Do(w, s, a).dests[j];
            d'.q.items == d.q.items + Admits(w, s, a, j) && d'.dropped == d.dropped + Overflows(w, s, a, j)
  {
    EngineDest(w, s, a, j);
    OfferedQueue(s.dests[j], a.e);
    assert s.dests[j].q.items + [] == s.dests[j].q.items;
  }

  lemma TakeQueue(w: Wants, s: State, a: Action, j: nat)
    requires a == Take(j) && Enabled(s, a) && j < |s.dests|
    ensures Picks(s, a, j) + Do(w, s, a).dests[j].q.items == s.dests[j].q.items
  {
    var items := s.dests[j].q.items;
    assert items == [items[0]] + items[1..];
  }

  lemma QuietQueue(w: Wants, s: State, a: Action, j: nat)
    requires !a.Engine? && a != Take(j) && Enabled(s, a) && j < |s.dests|
    ensures Do(w, s, a).dests[j].q.items == s.dests[j].q.items && Picks(s, a, j) == []
  {
  }

  lemma QuietDrops(w: Wants, s: State, a: Action, j: nat)
    requires !a.Engine? && Enabled(s, a) && j < |s.dests|
    ensures Do(w, s, a).dests[j].dropped == s.dests[j].dropped
  {
  }

  lemma OtherQueue(w: Wants, s: State, a: Action, j: nat)
    requires !a.Engine? && Enabled(s, a) && j < |s.dests|
    ensures var d, d' := s.dests[j], Do(w, s, a).dests[j];
            d'.dropped == d.dropped && Picks(s, a, j) + d'.q.items == d.q.items
  {
    QuietDrops(w, s, a, j);
    if a == Take(j) {
      TakeQueue(w, s, a, j);
    } else {
      QuietQueue(w, s, a, j);
      assert [] + s.dests[j].q.items == s.dests[j].q.items;
    }
  }

  lemma QueueStep(w: Wants, s: State, a: Action, j: nat)
    requires Enabled(s, a) && j < |s.dests|
    ensures Picks(s, a, j) + Do(w, s, a).dests[j].q.items == s.dests[j].q.items + Admits(w, s, a, j)
    ensures Do(w, s, a).dests[j].dropped == s.dests[j].dropped + Overflows(w, s, a, j)
  {
    if a.Engine? { EngineQueue(w, s, a, j); } else { OtherQueue(w, s, a, j); }
  }

  lemma Passing<T>(picked: seq<T>, items: seq<T>, admitted: seq<T>, p: seq<T>, items': seq<T>, x: seq<T>)
    requires picked + items == admitted && p + items' == items + x
    ensures picked + p + items' == admitted + x
  {
    assert picked + p + items' == picked + (p + items');
    assert picked + (items + x) == picked + items + x;
  }

  /**
   A destination is handed its events in the order they were emitted, and loses exactly those that found its queue
   full: what its worker picked up, then what is still queued, is what was admitted.
   */
  lemma {:induction false} FirstInFirstOut(w: Wants, n: nat, acts: seq<Action>, s: State, j: nat)
    requires After(w, n, acts) == Some(s) && j < n
    ensures |s.dests| == n
    ensures var t := Traffics(w, n, acts, j); t.picked + s.dests[j].q.items == t.admitted && s.dests[j].dropped == t.overflowed
  {
    if acts != [] {
      var k := |acts| - 1;
      var before, a := After(w, n, acts[..k]).value, acts[k];
      FirstInFirstOut(w, n, acts[..k], before, j);
      StepOffers(w, before, a, j);
      QueueStep(w, before, a, j);
      var t := Traffics(w, n, acts[..k], j);
      Passing(t.picked, before.dests[j].q.items, t.admitted, Picks(before, a, j), s.dests[j].q.items, Admits(w, before, a, j));
    }
  }

  /** Nothing is admitted or lost but what the destination wants, and nothing twice. */
  lemma {:induction false} AdmittedIsWanted(w: Wants, n: nat, acts: seq<Action>, j: nat)
    requires After(w, n, acts).Some?
    ensures var t := Traffics(w, n, acts, j); multiset(t.admitted) + t.overflowed <= multiset(WantedEvents(w, acts, j))
  {
    if acts != [] {
      var k := |acts| - 1;
      AdmittedIsWanted(w, n, acts[..k], j);
      var s := After(w, n, acts[..k]).value;
      var t := Traffics(w, n, acts[..k], j);
      assert multiset(t.admitted + Admits(w, s, acts[k], j)) == multiset(t.admitted) + multiset(Admits(w, s, acts[k], j));
    }
  }

  // ----- who settled what -----

  /** How often j's worker settled an event with this verdict, and how often the ledger took an outcome or not. */
  function Settlements(acts: seq<Action>, j: nat, delivered: bool): nat {
    if acts == [] then 0 else Settlements(acts[..|acts| - 1], j, delivered) + if acts[|acts| - 1] == Settle(j, delivered) then 1 else 0
  }

  function Recordings(acts: seq<Action>, accepted: bool): nat {
    if acts == [] then 0
    else Recordings(acts[..|acts| - 1], accepted) +
         if acts[|acts| - 1].Record? && acts[|acts| - 1].accepted == accepted then 1 else 0
  }

  lemma StepCounts(w: Wants, s: State, a: Action, j: nat)
    requires Enabled(s, a) && j < |s.dests|
    ensures |Do(w, s, a).dests| == |s.dests|
    ensures |Do(w, s, a).dests[j].delivered| == |s.dests[j].delivered| + if a == Settle(j, true) then 1 else 0
    ensures |Do(w, s, a).dests[j].failed| == |s.dests[j].failed| + if a == Settle(j, false) then 1 else 0
  {
    if a.Settle? {
      SettledCounts(s.dests[a.i], a.delivered);
    } else if a.Engine? {
      EngineDest(w, s, a, j);
      OfferedQueue(s.dests[j], a.e);
    }
  }

  lemma SettledCounts(d: Dest, delivered: bool)
    requires d.busy.Some?
    ensures |Settled(d, delivered).delivered| == |d.delivered| + if delivered then 1 else 0
    ensures |Settled(d, delivered).failed| == |d.failed| + if delivered then 0 else 1
  {
  }

  lemma {:induction false} DropsRecordNothing(w: Wants, ds: seq<Dest>, p: Pipe, e: Event, n: nat)
    ensures ReportDrops(w, ds, p, e, n).ledger == p.ledger && ReportDrops(w, ds, p, e, n).unrecorded == p.unrecorded
  {
    if n > 0 { DropsRecordNothing(w, ds, p, e, n - 1); }
  }

  lemma StepRecords(w: Wants, s: State, a: Action)
    requires Enabled(s, a)
    ensures |Do(w, s, a).pipe.ledger| == |s.pipe.ledger| + if a.Record? && a.accepted then 1 else 0
    ensures |Do(w, s, a).pipe.unrecorded| == |s.pipe.unrecorded| + if a.Record? && !a.accepted then 1 else 0
  {
    if a.Engine? { DropsRecordNothing(w, s.dests, s.pipe, a.e, |s.dests|); }
  }

  /** Deliveries, failures, ledger entries and shutdown lines are as many as the actions that made them. */
  lemma {:induction false} CountedByActions(w: Wants, n: nat, acts: seq<Action>, s: State, j: nat)
    requires After(w, n, acts) == Some(s) && j < n
    ensures |s.dests| == n
    ensures |s.dests[j].delivered| == Settlements(acts, j, true) && |s.dests[j].failed| == Settlements(acts, j, false)
    ensures |s.pipe.ledger| == Recordings(acts, true) && |s.pipe.unrecorded| == Recordings(acts, false)
  {
    if acts != [] {
      var k := |acts| - 1;
      var before := After(w, n, acts[..k]).value;
      CountedByActions(w, n, acts[..k], before, j);
      StepCounts(w, before, acts[k], j);
      StepRecords(w, before, acts[k]);
    }
  }
}
