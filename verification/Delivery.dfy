/** Destination.send: one event's delivery, with its retries. */
module Deliveries {

  /** What one request came back with; no answer is status 0 in the source. */
  datatype Reply = NoAnswer | Answer(status: nat) | Panics

  /** What preparing the request came to, before anything is sent. */
  datatype Prepared = NoUrl | BuildFailed | NothingToSay | RequestWithoutUrl | Ready

  datatype Sent = Skipped | Delivered(attempts: nat, status: nat) | Failed(attempts: nat, status: nat)

  predicate Succeeds(r: Reply) {
    r.Answer? && r.status / 100 == 2
  }

  function StatusOf(r: Reply): nat {
    if r.Answer? then r.status else 0
  }

  predicate Retryable(status: nat) {
    status == 0 || status == 429 || status / 100 == 5
  }

  /** The k-th attempt failed, was worth retrying, and the wait after it was not cut short. */
  predicate GoesOn(reply: nat -> Reply, waits: nat -> bool, budget: nat, k: nat) {
    k < budget && !reply(k).Panics? && !Succeeds(reply(k)) && Retryable(StatusOf(reply(k))) && waits(k)
  }

  /** The attempt that decides: the first one that does not go on. */
  ghost predicate Decides(reply: nat -> Reply, waits: nat -> bool, budget: nat, k: nat) {
    1 <= k <= budget && !GoesOn(reply, waits, budget, k) && forall j :: 1 <= j < k ==> GoesOn(reply, waits, budget, j)
  }

  function Verdict(r: Reply, k: nat): Sent {
    if r.Panics? then Failed(0, 0)
    else if Succeeds(r) then Delivered(k, StatusOf(r))
    else Failed(k, StatusOf(r))
  }

  /** Sends one event. A panic anywhere below is a failure with no attempts to its name, never silence. */
  method Send(prep: Prepared, reply: nat -> Reply, waits: nat -> bool, budget: nat) returns (o: Sent)
    requires budget >= 1
    ensures prep.NothingToSay? <==> o.Skipped?
    ensures prep.NoUrl? || prep.BuildFailed? || prep.RequestWithoutUrl? ==> o == Failed(0, 0)
    ensures prep.Ready? ==> exists k :: Decides(reply, waits, budget, k) && o == Verdict(reply(k), k)
  {
    match prep
    case NoUrl => o := Failed(0, 0);
    case BuildFailed => o := Failed(0, 0);
    case NothingToSay => o := Skipped;
    case RequestWithoutUrl => o := Failed(0, 0);
    case Ready =>
      var attempt := 1;
      o := Failed(0, 0);
      while attempt <= budget
        invariant 1 <= attempt <= budget
        invariant forall j :: 1 <= j < attempt ==> GoesOn(reply, waits, budget, j)
        decreases budget - attempt
      {
        var r := reply(attempt);
        o := Verdict(r, attempt);
        if r.Panics? || Succeeds(r) || attempt == budget || !Retryable(StatusOf(r)) || !waits(attempt) {
          assert Decides(reply, waits, budget, attempt);
          return;
        }
        attempt := attempt + 1;
      }
  }

  /**
   An event counts as delivered exactly when some attempt within the budget is answered with a 2xx and
   every attempt before it was unavailable rather than unwilling: no answer, 429 or 5xx.
   */
  lemma DeliveredExactly(reply: nat -> Reply, waits: nat -> bool, budget: nat, k: nat)
    requires Decides(reply, waits, budget, k)
    ensures Verdict(reply(k), k).Delivered? <==>
            exists i :: 1 <= i <= budget && Succeeds(reply(i)) && forall j :: 1 <= j < i ==> GoesOn(reply, waits, budget, j)
    ensures forall i :: Decides(reply, waits, budget, i) ==> i == k
  {
    forall i: nat | Decides(reply, waits, budget, i) ensures i == k {
      assert !(i < k) && !(k < i);
    }
    if i :| 1 <= i <= budget && Succeeds(reply(i)) && forall j :: 1 <= j < i ==> GoesOn(reply, waits, budget, j) {
      assert !GoesOn(reply, waits, budget, i);
      assert Decides(reply, waits, budget, i);
    }
  }

  /**
   By status: a 2xx delivers at that attempt; no answer, 429 and 5xx go on while there is budget and time; and any
   other status, every other 4xx among them, ends the delivery as a failure.
   */
  lemma StatusDecides(reply: nat -> Reply, waits: nat -> bool, budget: nat, k: nat)
    requires 1 <= k <= budget
    ensures reply(k) == NoAnswer ==> (GoesOn(reply, waits, budget, k) <==> k < budget && waits(k))
    ensures reply(k).Answer? && (reply(k).status == 429 || 500 <= reply(k).status < 600) ==>
              (GoesOn(reply, waits, budget, k) <==> k < budget && waits(k))
    ensures reply(k).Answer? && 200 <= reply(k).status < 300 ==>
              !GoesOn(reply, waits, budget, k) && Verdict(reply(k), k) == Delivered(k, reply(k).status)
    ensures reply(k).Answer? && 400 <= reply(k).status < 500 && reply(k).status != 429 ==>
              !GoesOn(reply, waits, budget, k) && Verdict(reply(k), k) == Failed(k, reply(k).status)
    ensures reply(k).Answer? && 300 <= reply(k).status < 400 ==>
              !GoesOn(reply, waits, budget, k) && Verdict(reply(k), k) == Failed(k, reply(k).status)
    ensures reply(k) == NoAnswer ==> Verdict(reply(k), k) == Failed(k, 0)
    ensures reply(k).Answer? && (reply(k).status == 429 || 500 <= reply(k).status < 600) ==>
              Verdict(reply(k), k) == Failed(k, reply(k).status)
    ensures reply(k).Panics? ==> !GoesOn(reply, waits, budget, k) && Verdict(reply(k), k) == Failed(0, 0)
  {
  }
}
