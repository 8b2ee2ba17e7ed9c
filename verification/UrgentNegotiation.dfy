/**
 * Urgent negotiation: a booking is broadcast, one driver locks it and proposes an arrival time,
 * the customer accepts or rejects, and timeouts end either wait. Every step is a compare-and-set
 * on the negotiation's status.
 */
module UrgentNegotiation {
  import opened Basics

  const MAX_ATTEMPTS: nat := 3
  const LOCK_MS := 3 * 60 * 1000
  const DECISION_MS := 2 * 60 * 1000

  datatype Status = Broadcasting | Locked | AwaitingCustomer | Confirmed | Cancelled

  datatype Outcome = InProgress | DriverEtaTimeout | CustomerAccepted | CustomerRejected | CustomerAutoRejected

  datatype Row = Row(
    status: Status,
    attemptCount: nat,
    lockedDriver: Option<nat>,
    lockExpiresAt: Option<int>,
    decisionExpiresAt: Option<int>,
    minRequiredEta: Option<int>,
    closedReason: Option<string>)

  datatype Attempt = Attempt(number: nat, driver: nat, eta: Option<int>, outcome: Outcome)

  datatype Negotiation = Negotiation(row: Row, attempts: seq<Attempt>)

  const NEW := Negotiation(Row(Broadcasting, 0, None, None, None, None, None), [])

  // ---------------------------------------------------------------- guarded updates of one row

  function LockIfBroadcasting(r: Row, driver: nat, now: int): Option<Row> {
    if r.status == Broadcasting && r.lockedDriver.None?
    then Some(r.(status := Locked, lockedDriver := Some(driver), lockExpiresAt := Some(now + LOCK_MS)))
    else None
  }

  function MarkAwaitingCustomer(r: Row, now: int): Option<Row> {
    if r.status == Locked
    then Some(r.(status := AwaitingCustomer, decisionExpiresAt := Some(now + DECISION_MS)))
    else None
  }

  function Confirm(r: Row): Option<Row> {
    if r.status == AwaitingCustomer
    then Some(r.(status := Confirmed, closedReason := Some("CUSTOMER_ACCEPTED"), decisionExpiresAt := None))
    else None
  }

  // The part that rebroadcasting and cancelling a failed round share.
  function EndRound(r: Row, minEta: Option<int>): Row {
    r.(attemptCount := r.attemptCount + 1,
       minRequiredEta := if minEta.Some? then minEta else r.minRequiredEta,
       lockedDriver := None, lockExpiresAt := None, decisionExpiresAt := None)
  }

  function RebroadcastAfterFailure(r: Row, from: Status, minEta: Option<int>): Option<Row> {
    if r.status == from then Some(EndRound(r, minEta).(status := Broadcasting)) else None
  }

  function CancelAfterFailure(r: Row, from: Status, minEta: Option<int>): Option<Row> {
    if r.status == from
    then Some(EndRound(r, minEta).(status := Cancelled, closedReason := Some("URGENT_NEGOTIATION_EXHAUSTED")))
    else None
  }

  // ---------------------------------------------------------------- the attempts table

  // The row with the greatest attempt number.
  function LatestIndex(attempts: seq<Attempt>): (i: nat)
    requires attempts != []
    ensures i < |attempts|
    ensures forall j :: 0 <= j < |attempts| ==> attempts[j].number <= attempts[i].number
  {
    if |attempts| == 1 then 0
    else
      var i := LatestIndex(attempts[..|attempts| - 1]);
      if attempts[i].number <= attempts[|attempts| - 1].number then |attempts| - 1 else i
  }

  // (negotiation, attempt number) is a unique key.
  predicate NumberTaken(attempts: seq<Attempt>, number: nat) {
    exists i :: 0 <= i < |attempts| && attempts[i].number == number
  }

  // ---------------------------------------------------------------- transactions

  /**
   * One transaction of the service. `eligible` stands for the checks on drivers, bookings,
   * assignments and vehicles that are not part of this model: they can only refuse a step.
   */
  datatype Step =
    | Lock(driver: nat, now: int, eligible: bool)
    | SubmitEta(driver: nat, eta: int, remainingMinutes: int, now: int, eligible: bool)
    | Accept(now: int, eligible: bool)
    | Reject(now: int, eligible: bool)
    | LockTimeout(now: int, eligible: bool)
    | DecisionTimeout(now: int, eligible: bool)

  function FailRound(n: Negotiation, from: Status, outcome: Outcome, minEta: Option<int>): Option<Negotiation>
    requires n.attempts != []
  {
    var i := LatestIndex(n.attempts);
    var row := if n.row.attemptCount + 1 >= MAX_ATTEMPTS
               then CancelAfterFailure(n.row, from, minEta)
               else RebroadcastAfterFailure(n.row, from, minEta);
    if row.Some? then Some(Negotiation(row.value, n.attempts[i := n.attempts[i].(outcome := outcome)])) else None
  }

  /** The negotiation after a transaction that committed, or None when it refused and rolled back. */
  function Take(n: Negotiation, s: Step): Option<Negotiation> {
    if !s.eligible then None
    else match s
      case Lock(driver, now, _) =>
        var row := LockIfBroadcasting(n.row, driver, now);
        var number := n.row.attemptCount + 1;
        if row.None? || NumberTaken(n.attempts, number) then None
        else Some(Negotiation(row.value, n.attempts + [Attempt(number, driver, None, InProgress)]))
      case SubmitEta(driver, eta, remaining, now, _) =>
        if eta <= 0 || n.row.status != Locked || n.row.lockedDriver != Some(driver)
           || n.row.lockExpiresAt.None? || now >= n.row.lockExpiresAt.value
           || eta > remaining
           || (n.row.minRequiredEta.Some? && eta >= n.row.minRequiredEta.value)
           || n.attempts == [] then None
        else
          var row := MarkAwaitingCustomer(n.row, now);
          var i := LatestIndex(n.attempts);
          if row.None? then None
          else Some(Negotiation(row.value, n.attempts[i := n.attempts[i].(eta := Some(eta))]))
      case Accept(now, _) =>
        if !DecisionOpen(n, now) then None
        else
          var row := Confirm(n.row);
          var i := LatestIndex(n.attempts);
          if row.None? then None
          else Some(Negotiation(row.value, n.attempts[i := n.attempts[i].(outcome := CustomerAccepted)]))
      case Reject(now, _) =>
        if !DecisionOpen(n, now) then None
        else FailRound(n, AwaitingCustomer, CustomerRejected, n.attempts[LatestIndex(n.attempts)].eta)
      case LockTimeout(now, _) =>
        if n.row.status != Locked || n.row.lockExpiresAt.None? || now < n.row.lockExpiresAt.value || n.attempts == []
        then None
        else FailRound(n, Locked, DriverEtaTimeout, None)
      case DecisionTimeout(now, _) =>
        if n.row.status != AwaitingCustomer || n.row.decisionExpiresAt.None? || now < n.row.decisionExpiresAt.value
           || n.attempts == [] || !HasEta(n.attempts[LatestIndex(n.attempts)]) then None
        else FailRound(n, AwaitingCustomer, CustomerAutoRejected, n.attempts[LatestIndex(n.attempts)].eta)
  }

  // `proposed_eta_minutes` is set and not 0.
  predicate HasEta(a: Attempt) {
    a.eta.Some? && a.eta.value != 0
  }

  predicate DecisionOpen(n: Negotiation, now: int) {
    n.row.status == AwaitingCustomer && n.row.decisionExpiresAt.Some? && now < n.row.decisionExpiresAt.value
    && n.attempts != [] && HasEta(n.attempts[LatestIndex(n.attempts)])
  }

  function After(n: Negotiation, s: Step): Negotiation {
    Take(n, s).GetOr(n)
  }

  /** The negotiation's rows as the service updates them. */
  class NegotiationStore {
    var row: Row
    var attempts: seq<Attempt>

    function Value(): Negotiation
      reads this
    {
      Negotiation(row, attempts)
    }

    constructor InsertNegotiation()
      ensures Value() == NEW
    {
      row := Row(Broadcasting, 0, None, None, None, None, None);
      attempts := [];
    }

    // Every SQL update answers whether a row matched its guard.

    method LockNegotiationIfBroadcasting(driver: nat, now: int) returns (affected: bool)
      modifies this`row
      ensures affected <==> LockIfBroadcasting(old(row), driver, now).Some?
      ensures row == LockIfBroadcasting(old(row), driver, now).GetOr(old(row))
    {
      affected := row.status == Broadcasting && row.lockedDriver.None?;
      if affected {
        row := row.(lockedDriver := Some(driver), status := Locked, lockExpiresAt := Some(now + LOCK_MS));
      }
    }

    method MarkNegotiationAwaitingCustomer(now: int) returns (affected: bool)
      modifies this`row
      ensures affected <==> MarkAwaitingCustomer(old(row), now).Some?
      ensures row == MarkAwaitingCustomer(old(row), now).GetOr(old(row))
    {
      affected := row.status == Locked;
      if affected {
        row := row.(status := AwaitingCustomer, decisionExpiresAt := Some(now + DECISION_MS));
      }
    }

    method ConfirmNegotiation() returns (affected: bool)
      modifies this`row
      ensures affected <==> Confirm(old(row)).Some?
      ensures row == Confirm(old(row)).GetOr(old(row))
    {
      affected := row.status == AwaitingCustomer;
      if affected {
        row := row.(status := Confirmed, closedReason := Some("CUSTOMER_ACCEPTED"), decisionExpiresAt := None);
      }
    }

    method RebroadcastAfterAttemptFailure(from: Status, minEta: Option<int>) returns (affected: bool)
      modifies this`row
      ensures affected <==> RebroadcastAfterFailure(old(row), from, minEta).Some?
      ensures row == RebroadcastAfterFailure(old(row), from, minEta).GetOr(old(row))
    {
      affected := row.status == from;
      if affected {
        row := row.(status := Broadcasting, attemptCount := row.attemptCount + 1);
        if minEta.Some? {
          row := row.(minRequiredEta := minEta);
        }
        row := row.(lockedDriver := None, lockExpiresAt := None, decisionExpiresAt := None);
      }
    }

    method CancelAfterAttemptFailure(from: Status, minEta: Option<int>) returns (affected: bool)
      modifies this`row
      ensures affected <==> CancelAfterFailure(old(row), from, minEta).Some?
      ensures row == CancelAfterFailure(old(row), from, minEta).GetOr(old(row))
    {
      affected := row.status == from;
      if affected {
        row := row.(status := Cancelled, attemptCount := row.attemptCount + 1);
        if minEta.Some? {
          row := row.(minRequiredEta := minEta);
        }
        row := row.(lockedDriver := None, lockExpiresAt := None, decisionExpiresAt := None);
        row := row.(closedReason := Some("URGENT_NEGOTIATION_EXHAUSTED"));
      }
    }

    // The service's transactions; `done` is false when they roll back.

    method LockNegotiation(driver: nat, now: int, eligible: bool) returns (done: bool)
      modifies this
      ensures Value() == After(old(Value()), Lock(driver, now, eligible))
      ensures done <==> Take(old(Value()), Lock(driver, now, eligible)).Some?
    {
      if !eligible { return false; }
      var before := row;
      var affected := LockNegotiationIfBroadcasting(driver, now);
      if !affected { return false; }
      var number := before.attemptCount + 1;
      if NumberTaken(attempts, number) {
        row := before;
        return false;
      }
      attempts := attempts + [Attempt(number, driver, None, InProgress)];
      return true;
    }

    method SubmitDriverEta(driver: nat, eta: int, remaining: int, now: int, eligible: bool) returns (done: bool)
      modifies this
      ensures Value() == After(old(Value()), SubmitEta(driver, eta, remaining, now, eligible))
      ensures done <==> Take(old(Value()), SubmitEta(driver, eta, remaining, now, eligible)).Some?
    {
      if !eligible || eta <= 0 { return false; }
      if row.status != Locked || row.lockedDriver != Some(driver) { return false; }
      if row.lockExpiresAt.None? || now >= row.lockExpiresAt.value { return false; }
      if eta > remaining { return false; }
      if row.minRequiredEta.Some? && eta >= row.minRequiredEta.value { return false; }
      if attempts == [] { return false; }
      var affected := MarkNegotiationAwaitingCustomer(now);
      var i := LatestIndex(attempts);
      attempts := attempts[i := attempts[i].(eta := Some(eta))];
      return true;
    }

    method SubmitCustomerDecision(accept: bool, now: int, eligible: bool) returns (done: bool)
      modifies this
      ensures var s := if accept then Accept(now, eligible) else Reject(now, eligible);
              Value() == After(old(Value()), s) && (done <==> Take(old(Value()), s).Some?)
    {
      if !eligible || !DecisionOpen(Value(), now) { return false; }
      var i := LatestIndex(attempts);
      if accept {
        attempts := attempts[i := attempts[i].(outcome := CustomerAccepted)];
        done := ConfirmNegotiation();
      } else {
        done := CompleteFailedRound(AwaitingCustomer, CustomerRejected, attempts[i].eta);
      }
    }

    method ProcessDriverEtaTimeout(now: int, eligible: bool) returns (done: bool)
      modifies this
      ensures Value() == After(old(Value()), LockTimeout(now, eligible))
      ensures done <==> Take(old(Value()), LockTimeout(now, eligible)).Some?
    {
      if !eligible || row.status != Locked { return false; }
      if row.lockExpiresAt.None? || now < row.lockExpiresAt.value || attempts == [] { return false; }
      done := CompleteFailedRound(Locked, DriverEtaTimeout, None);
    }

    method ProcessCustomerDecisionTimeout(now: int, eligible: bool) returns (done: bool)
      modifies this
      ensures Value() == After(old(Value()), DecisionTimeout(now, eligible))
      ensures done <==> Take(old(Value()), DecisionTimeout(now, eligible)).Some?
    {
      if !eligible || row.status != AwaitingCustomer { return false; }
      if row.decisionExpiresAt.None? || now < row.decisionExpiresAt.value || attempts == [] { return false; }
      var i := LatestIndex(attempts);
      if !HasEta(attempts[i]) { return false; }
      done := CompleteFailedRound(AwaitingCustomer, CustomerAutoRejected, attempts[i].eta);
    }

    /** Record the attempt's outcome, then cancel or broadcast again. */
    method CompleteFailedRound(from: Status, outcome: Outcome, minEta: Option<int>) returns (done: bool)
      requires attempts != [] && row.status == from
      modifies this
      ensures done && FailRound(old(Value()), from, outcome, minEta) == Some(Value())
    {
      var i := LatestIndex(attempts);
      attempts := attempts[i := attempts[i].(outcome := outcome)];
      if row.attemptCount + 1 >= MAX_ATTEMPTS {
        done := CancelAfterAttemptFailure(from, minEta);
      } else {
        done := RebroadcastAfterAttemptFailure(from, minEta);
      }
    }
  }

  // ---------------------------------------------------------------- the invariant

  predicate HoldsLock(s: Status) {
    s in {Locked, AwaitingCustomer, Confirmed}
  }

  // Attempts are numbered 1, 2, 3, ... in the order of the locks, and every successful lock has one.
  ghost predicate LocksAccounted(n: Negotiation) {
    (forall i :: 0 <= i < |n.attempts| ==> n.attempts[i].number == i + 1)
    && |n.attempts| == n.row.attemptCount + if HoldsLock(n.row.status) then 1 else 0
  }

  ghost predicate Failed(a: Attempt) {
    (a.outcome == DriverEtaTimeout && a.eta.None?)
    || ((a.outcome == CustomerRejected || a.outcome == CustomerAutoRejected) && a.eta.Some? && a.eta.value > 0)
  }

  ghost predicate StatusFits(n: Negotiation) {
    var r := n.row;
    if HoldsLock(r.status) then
      n.attempts != []
      && var last := n.attempts[|n.attempts| - 1];
         r.lockedDriver == Some(last.driver)
         && (r.status == Locked ==>
               last.outcome == InProgress && last.eta.None? && r.lockExpiresAt.Some? && r.decisionExpiresAt.None?)
         && (r.status == AwaitingCustomer ==>
               last.outcome == InProgress && last.eta.Some? && last.eta.value > 0 && r.decisionExpiresAt.Some?)
         && (r.status == Confirmed ==>
               last.outcome == CustomerAccepted && last.eta.Some? && last.eta.value > 0 && r.decisionExpiresAt.None?)
    else r.lockedDriver.None? && r.lockExpiresAt.None? && r.decisionExpiresAt.None?
  }

  // Every resolved round failed, except the one a confirmed negotiation ended with.
  ghost predicate EarlierFailed(n: Negotiation) {
    forall i :: 0 <= i < |n.attempts| - (if HoldsLock(n.row.status) then 1 else 0) ==> Failed(n.attempts[i])
  }

  ghost predicate AttemptsBounded(n: Negotiation) {
    if n.row.status == Cancelled then n.row.attemptCount == MAX_ATTEMPTS else n.row.attemptCount < MAX_ATTEMPTS
  }

  // Each proposal that reached the customer beats every earlier one, and the floor follows the rejections.
  ghost predicate EtasImprove(n: Negotiation) {
    (forall i, j :: 0 <= i < j < |n.attempts| && n.attempts[i].eta.Some? && n.attempts[j].eta.Some? ==>
       n.attempts[j].eta.value < n.attempts[i].eta.value)
    && (forall i :: 0 <= i < |n.attempts| && n.attempts[i].eta.Some? && Failed(n.attempts[i]) ==>
          n.row.minRequiredEta.Some? && n.row.minRequiredEta.value <= n.attempts[i].eta.value)
    && BeatsFloor(n)
  }

  // A floor is at least one minute, and a proposal before the customer is below it.
  ghost predicate BeatsFloor(n: Negotiation) {
    n.row.minRequiredEta.Some? ==>
      n.row.minRequiredEta.value >= 1
      && (n.row.status in {AwaitingCustomer, Confirmed} && n.attempts != []
          && n.attempts[|n.attempts| - 1].eta.Some? ==>
            n.attempts[|n.attempts| - 1].eta.value < n.row.minRequiredEta.value)
  }

  ghost predicate Inv(n: Negotiation) {
    LocksAccounted(n) && StatusFits(n) && EarlierFailed(n) && AttemptsBounded(n) && EtasImprove(n)
  }

  lemma LatestIsLast(n: Negotiation)
    requires LocksAccounted(n) && n.attempts != []
    ensures LatestIndex(n.attempts) == |n.attempts| - 1
  {
    var i := LatestIndex(n.attempts);
    assert n.attempts[|n.attempts| - 1].number <= n.attempts[i].number;
  }

  lemma FailRoundImproves(n: Negotiation, m: Negotiation, minEta: Option<int>)
    requires Inv(n) && n.row.status in {Locked, AwaitingCustomer} && |m.attempts| == |n.attempts|
    requires forall i :: 0 <= i < |n.attempts| ==> m.attempts[i].eta == n.attempts[i].eta
    requires minEta == n.attempts[|n.attempts| - 1].eta
    requires m.row.minRequiredEta == if minEta.Some? then minEta else n.row.minRequiredEta
    requires m.row.status in {Broadcasting, Cancelled}
    ensures EtasImprove(m)
  {
    var last := |n.attempts| - 1;
    assert forall i :: 0 <= i < last ==> Failed(n.attempts[i]);
    assert forall i :: 0 <= i < last && n.attempts[i].eta.Some? && minEta.Some? ==>
        minEta.value < n.attempts[i].eta.value;
  }

  lemma FailRoundKeepsInv(n: Negotiation, from: Status, outcome: Outcome, minEta: Option<int>)
    requires Inv(n) && n.row.status == from && (from == Locked || from == AwaitingCustomer)
    requires from == Locked ==> outcome == DriverEtaTimeout && minEta.None?
    requires from == AwaitingCustomer ==> (outcome == CustomerRejected || outcome == CustomerAutoRejected)
                                          && minEta == n.attempts[|n.attempts| - 1].eta
    ensures FailRound(n, from, outcome, minEta).Some? && Inv(FailRound(n, from, outcome, minEta).value)
  {
    LatestIsLast(n);
    var m := FailRound(n, from, outcome, minEta).value;
    var last := |n.attempts| - 1;
    assert m.attempts == n.attempts[last := n.attempts[last].(outcome := outcome)];
    assert Failed(m.attempts[last]);
    assert EarlierFailed(m) && LocksAccounted(m);
    assert AttemptsBounded(m) && StatusFits(m);
    FailRoundImproves(n, m, minEta);
  }

  lemma {:induction false} StepKeepsInv(n: Negotiation, s: Step)
    requires Inv(n)
    ensures Inv(After(n, s))
  {
    if n.attempts != [] { LatestIsLast(n); }
    if Take(n, s).Some? {
      match s
      case Lock(_, _, _) => LockKeepsInv(n, s);
      case SubmitEta(_, _, _, _, _) => SubmitKeepsInv(n, s);
      case Accept(_, _) => AcceptKeepsInv(n, s);
      case Reject(_, _) =>
        FailRoundKeepsInv(n, AwaitingCustomer, CustomerRejected, n.attempts[|n.attempts| - 1].eta);
      case LockTimeout(_, _) => FailRoundKeepsInv(n, Locked, DriverEtaTimeout, None);
      case DecisionTimeout(_, _) =>
        FailRoundKeepsInv(n, AwaitingCustomer, CustomerAutoRejected, n.attempts[|n.attempts| - 1].eta);
    }
  }

  lemma AcceptKeepsInv(n: Negotiation, s: Step)
    requires Inv(n) && s.Accept? && Take(n, s).Some?
    ensures Inv(After(n, s))
  {
    LatestIsLast(n);
    var m := After(n, s);
    assert forall i :: 0 <= i < |n.attempts| ==> m.attempts[i].eta == n.attempts[i].eta;
    assert forall i :: 0 <= i < |n.attempts| - 1 ==> m.attempts[i] == n.attempts[i];
  }

  lemma LockKeepsInv(n: Negotiation, s: Step)
    requires Inv(n) && s.Lock? && Take(n, s).Some?
    ensures Inv(After(n, s))
  {
    var m := After(n, s);
    assert forall i :: 0 <= i < |n.attempts| ==> m.attempts[i] == n.attempts[i];
  }

  lemma SubmitKeepsInv(n: Negotiation, s: Step)
    requires Inv(n) && s.SubmitEta? && Take(n, s).Some?
    ensures Inv(After(n, s))
  {
    LatestIsLast(n);
    var m := After(n, s);
    var last := |n.attempts| - 1;
    assert forall i :: 0 <= i < last ==> m.attempts[i] == n.attempts[i] && Failed(n.attempts[i]);
  }

  // ---------------------------------------------------------------- what each transaction writes

  // The attempts with only the last one changed.
  function WithLast(n: Negotiation, a: Attempt): seq<Attempt>
    requires n.attempts != []
  {
    n.attempts[|n.attempts| - 1 := a]
  }

  /** A lock gives the driver three minutes, and opens the next attempt in the driver's name. */
  lemma LockWrites(n: Negotiation, driver: nat, now: int, eligible: bool)
    requires Inv(n) && Take(n, Lock(driver, now, eligible)).Some?
    ensures eligible && n.row.status == Broadcasting
    ensures Take(n, Lock(driver, now, eligible)).value
         == Negotiation(Row(Locked, n.row.attemptCount, Some(driver), Some(now + 180000), None,
                            n.row.minRequiredEta, n.row.closedReason),
                        n.attempts + [Attempt(n.row.attemptCount + 1, driver, None, InProgress)])
  {
    assert StatusFits(n);
  }

  /**
   * A proposal goes through only for the driver who holds the lock, is stored as given on the latest
   * attempt and nowhere else, and gives the customer two minutes.
   */
  lemma ProposalWrites(n: Negotiation, driver: nat, eta: int, remaining: int, now: int, eligible: bool)
    requires Inv(n) && Take(n, SubmitEta(driver, eta, remaining, now, eligible)).Some?
    ensures eligible && n.row.status == Locked && n.row.lockedDriver == Some(driver) && n.attempts != []
    ensures var m := Take(n, SubmitEta(driver, eta, remaining, now, eligible)).value;
            var last := n.attempts[|n.attempts| - 1];
            m.row == Row(AwaitingCustomer, n.row.attemptCount, Some(driver), n.row.lockExpiresAt,
                         Some(now + 120000), n.row.minRequiredEta, n.row.closedReason)
            && m.attempts == WithLast(n, Attempt(last.number, last.driver, Some(eta), last.outcome))
  {
    LatestIsLast(n);
  }

  /** An acceptance closes the negotiation and marks the latest attempt, and nothing else. */
  lemma AcceptanceWrites(n: Negotiation, now: int, eligible: bool)
    requires Inv(n) && Take(n, Accept(now, eligible)).Some?
    ensures eligible && n.row.status == AwaitingCustomer && n.attempts != []
    ensures var m, last := Take(n, Accept(now, eligible)).value, n.attempts[|n.attempts| - 1];
            m.row == Row(Confirmed, n.row.attemptCount, n.row.lockedDriver, n.row.lockExpiresAt, None,
                         n.row.minRequiredEta, Some("CUSTOMER_ACCEPTED"))
            && m.attempts == WithLast(n, Attempt(last.number, last.driver, last.eta, CustomerAccepted))
  {
    LatestIsLast(n);
  }

  // The row after a round that failed: the third failure cancels.
  function FailedRow(r: Row, floor: Option<int>): Row {
    if r.attemptCount < 2 then Row(Broadcasting, r.attemptCount + 1, None, None, None, floor, r.closedReason)
    else Row(Cancelled, r.attemptCount + 1, None, None, None, floor, Some("URGENT_NEGOTIATION_EXHAUSTED"))
  }

  predicate FailedWith(n: Negotiation, m: Negotiation, outcome: Outcome, floor: Option<int>)
    requires n.attempts != []
  {
    var last := n.attempts[|n.attempts| - 1];
    m == Negotiation(FailedRow(n.row, floor), WithLast(n, Attempt(last.number, last.driver, last.eta, outcome)))
  }

  /** A rejection and an unanswered proposal end the round with the stored proposal as the floor. */
  lemma RejectionWrites(n: Negotiation, now: int, eligible: bool)
    requires Inv(n)
    ensures Take(n, Reject(now, eligible)).Some? ==>
              eligible && n.row.status == AwaitingCustomer && n.attempts != []
              && FailedWith(n, Take(n, Reject(now, eligible)).value, CustomerRejected,
                            n.attempts[|n.attempts| - 1].eta)
    ensures Take(n, DecisionTimeout(now, eligible)).Some? ==>
              eligible && n.row.status == AwaitingCustomer && n.attempts != []
              && FailedWith(n, Take(n, DecisionTimeout(now, eligible)).value, CustomerAutoRejected,
                            n.attempts[|n.attempts| - 1].eta)
  {
    if n.attempts != [] { LatestIsLast(n); }
  }

  /** A lock that times out ends the round and leaves the floor as it was. */
  lemma LockTimeoutWrites(n: Negotiation, now: int, eligible: bool)
    requires Inv(n) && Take(n, LockTimeout(now, eligible)).Some?
    ensures eligible && n.row.status == Locked && n.attempts != []
    ensures FailedWith(n, Take(n, LockTimeout(now, eligible)).value, DriverEtaTimeout, n.row.minRequiredEta)
  {
    LatestIsLast(n);
  }

  /** What a driver proposed is what the next rejection, or the missing answer, makes the floor. */
  lemma ProposalBecomesFloor(n: Negotiation, driver: nat, eta: int, remaining: int, now: int, later: int)
    requires Inv(n) && Take(n, SubmitEta(driver, eta, remaining, now, true)).Some?
    ensures var m := Take(n, SubmitEta(driver, eta, remaining, now, true)).value;
            (Take(m, Reject(later, true)).Some? <==> later < now + 120000)
            && (Take(m, DecisionTimeout(later, true)).Some? <==> later >= now + 120000)
            && (Take(m, Reject(later, true)).Some? ==>
                  Take(m, Reject(later, true)).value.row.minRequiredEta == Some(eta))
            && (Take(m, DecisionTimeout(later, true)).Some? ==>
                  Take(m, DecisionTimeout(later, true)).value.row.minRequiredEta == Some(eta))
  {
    var m := Take(n, SubmitEta(driver, eta, remaining, now, true)).value;
    ProposalWrites(n, driver, eta, remaining, now, true);
    StepKeepsInv(n, SubmitEta(driver, eta, remaining, now, true));
    LatestIsLast(m);
    RejectionWrites(m, later, true);
  }

  /** An ineligible step is refused, whatever it is. */
  lemma IneligibleIsRefused(n: Negotiation, s: Step)
    requires !s.eligible
    ensures Take(n, s) == None
  {
  }

  // ---------------------------------------------------------------- runs

  function Run(n: Negotiation, steps: seq<Step>): Negotiation {
    if steps == [] then n else After(Run(n, steps[..|steps| - 1]), steps[|steps| - 1])
  }

  lemma {:induction false} RunKeepsInv(steps: seq<Step>)
    ensures Inv(Run(NEW, steps))
  {
    if steps != [] {
      RunKeepsInv(steps[..|steps| - 1]);
      StepKeepsInv(Run(NEW, steps[..|steps| - 1]), steps[|steps| - 1]);
    }
  }

  datatype Kind = LockSteps | ResolvingSteps | AllSteps

  predicate OfKind(s: Step, kind: Kind) {
    match kind
    case LockSteps => s.Lock?
    case ResolvingSteps => !s.Lock? && !s.SubmitEta?
    case AllSteps => true
  }

  /** How many steps of one kind went through. */
  function Successes(n: Negotiation, steps: seq<Step>, kind: Kind): nat {
    if steps == [] then 0
    else
      var init, last := steps[..|steps| - 1], steps[|steps| - 1];
      Successes(n, init, kind) + if OfKind(last, kind) && Take(Run(n, init), last).Some? then 1 else 0
  }

  function Locks(n: Negotiation): nat {
    n.row.attemptCount + if HoldsLock(n.row.status) then 1 else 0
  }

  function Unresolved(n: Negotiation): nat {
    if n.row.status in {Locked, AwaitingCustomer} then 1 else 0
  }

  lemma StepConserves(n: Negotiation, s: Step)
    requires Inv(n)
    ensures var taken := Take(n, s).Some?;
            Locks(After(n, s)) == Locks(n) + (if taken && OfKind(s, LockSteps) then 1 else 0)
            && Unresolved(After(n, s)) + (if taken && OfKind(s, ResolvingSteps) then 1 else 0)
               == Unresolved(n) + (if taken && OfKind(s, LockSteps) then 1 else 0)
  {
  }

  /**
   * Conservation: over any interleaving of drivers, customer and timeouts, successful locks are
   * the counted failures plus the lock still held or confirmed, and each lock is resolved at
   * most once, by acceptance, rejection or timeout.
   */
  lemma {:induction false} LocksAreConserved(steps: seq<Step>)
    ensures var n := Run(NEW, steps);
            Successes(NEW, steps, LockSteps) == Locks(n)
            && Successes(NEW, steps, LockSteps) == Successes(NEW, steps, ResolvingSteps) + Unresolved(n)
  {
    if steps != [] {
      var init, last := steps[..|steps| - 1], steps[|steps| - 1];
      LocksAreConserved(init);
      RunKeepsInv(init);
      StepConserves(Run(NEW, init), last);
    }
  }

  /** Every reachable broadcast is clean, and each earlier proposal was slower than every later one. */
  lemma ReachableNegotiations(steps: seq<Step>, i: nat, j: nat)
    ensures var n := Run(NEW, steps);
            (n.row.status == Broadcasting ==>
               n.row.lockedDriver.None? && n.row.lockExpiresAt.None? && n.row.decisionExpiresAt.None?)
            && n.row.attemptCount <= MAX_ATTEMPTS
            && (i < j < |n.attempts| && n.attempts[i].eta.Some? && n.attempts[j].eta.Some? ==>
                  n.attempts[j].eta.value < n.attempts[i].eta.value)
  {
    RunKeepsInv(steps);
  }

  lemma ClosedIsFinal(n: Negotiation, s: Step)
    requires n.row.status in {Confirmed, Cancelled}
    ensures Take(n, s).None?
  {
  }

  lemma ResolvedStays(n: Negotiation, s: Step, i: nat)
    requires Inv(n) && i < |n.attempts| && n.attempts[i].outcome != InProgress
    ensures var m := After(n, s); i < |m.attempts| && m.attempts[i] == n.attempts[i]
  {
    LatestIsLast(n);
  }

  lemma {:induction false} ResolvedStaysOverRuns(n: Negotiation, more: seq<Step>, i: nat)
    requires Inv(n) && i < |n.attempts| && n.attempts[i].outcome != InProgress
    ensures var m := Run(n, more); Inv(m) && i < |m.attempts| && m.attempts[i] == n.attempts[i]
  {
    if more != [] {
      var init, last := more[..|more| - 1], more[|more| - 1];
      ResolvedStaysOverRuns(n, init, i);
      StepKeepsInv(Run(n, init), last);
      ResolvedStays(Run(n, init), last, i);
    }
  }

  lemma {:induction false} ClosedStaysOverRuns(n: Negotiation, more: seq<Step>)
    requires n.row.status in {Confirmed, Cancelled}
    ensures Run(n, more) == n
  {
    if more != [] {
      var init, last := more[..|more| - 1], more[|more| - 1];
      ClosedStaysOverRuns(n, init);
      ClosedIsFinal(n, last);
    }
  }

  /** A closed negotiation and a resolved attempt never change again. */
  lemma {:induction false} OutcomesAreFinal(steps: seq<Step>, more: seq<Step>, i: nat)
    requires i < |Run(NEW, steps).attempts| && Run(NEW, steps).attempts[i].outcome != InProgress
    ensures var n, m := Run(NEW, steps), Run(Run(NEW, steps), more);
            i < |m.attempts| && m.attempts[i] == n.attempts[i] && Inv(m)
            && (n.row.status in {Confirmed, Cancelled} ==> m == n)
  {
    RunKeepsInv(steps);
    ResolvedStaysOverRuns(Run(NEW, steps), more, i);
    if Run(NEW, steps).row.status in {Confirmed, Cancelled} { ClosedStaysOverRuns(Run(NEW, steps), more); }
  }

  // ---------------------------------------------------------------- termination

  /** What a negotiation has left: three steps for each remaining attempt. */
  function Measure(n: Negotiation): int {
    3 * (MAX_ATTEMPTS - n.row.attemptCount)
    - match n.row.status
      case Broadcasting => 0
      case Locked => 1
      case AwaitingCustomer => 2
      case Confirmed => 3
      case Cancelled => 0
  }

  lemma StepsCost(n: Negotiation, s: Step)
    requires Inv(n)
    ensures Measure(n) >= 0
    ensures Take(n, s).Some? ==> Measure(Take(n, s).value) < Measure(n)
  {
  }

  /** A negotiation takes at most 3 * MAX_ATTEMPTS steps, however long drivers and customer keep trying. */
  lemma {:induction false} NegotiationsTerminate(steps: seq<Step>)
    ensures Successes(NEW, steps, AllSteps) <= Measure(NEW) - Measure(Run(NEW, steps))
    ensures Successes(NEW, steps, AllSteps) <= 3 * MAX_ATTEMPTS
  {
    if steps != [] {
      var init, last := steps[..|steps| - 1], steps[|steps| - 1];
      NegotiationsTerminate(init);
      RunKeepsInv(init);
      StepsCost(Run(NEW, init), last);
    }
    RunKeepsInv(steps);
    StepsCost(Run(NEW, steps), Accept(0, false));
  }

  /** A broadcast can always be locked: the number of the new attempt is free. Nothing else can be. */
  lemma LockableExactly(n: Negotiation, driver: nat, now: int)
    requires Inv(n)
    ensures Take(n, Lock(driver, now, true)).Some? <==> n.row.status == Broadcasting
  {
    if n.row.status == Broadcasting {
      assert forall i :: 0 <= i < |n.attempts| ==> n.attempts[i].number <= n.row.attemptCount;
    }
  }

  /** The proposals a negotiation still takes: at least a minute, and below the floor of earlier rejections. */
  predicate FloorAllows(n: Negotiation) {
    n.row.minRequiredEta.Some? ==> n.row.minRequiredEta.value > 1
  }

  /**
   * A held lock has an acceptable proposal exactly while its time lasts, at least a minute remains
   * until pickup, and no one-minute proposal has been rejected.
   */
  lemma ProposalPossibleExactly(n: Negotiation, remaining: int, now: int)
    requires Inv(n) && n.row.status == Locked
    ensures (exists eta :: Take(n, SubmitEta(n.row.lockedDriver.value, eta, remaining, now, true)).Some?)
       <==> now < n.row.lockExpiresAt.value && remaining >= 1 && FloorAllows(n)
  {
    LatestIsLast(n);
    var driver := n.row.lockedDriver.value;
    if now < n.row.lockExpiresAt.value && remaining >= 1 && FloorAllows(n) {
      assert Take(n, SubmitEta(driver, 1, remaining, now, true)).Some?;
    }
  }

  /**
   * Deadlines: at any instant a lock's timeout is due or its time still runs, and the same holds
   * of the customer's decision. A driver whose time runs gets exactly the proposals through that
   * fit the pickup window and the floor; the customer may always answer.
   */
  lemma DeadlinesAreExact(n: Negotiation, now: int)
    requires Inv(n)
    ensures n.row.status == Locked ==>
              (Take(n, LockTimeout(now, true)).Some? <==> now >= n.row.lockExpiresAt.value)
              && forall eta, remaining ::
                   Take(n, SubmitEta(n.row.lockedDriver.value, eta, remaining, now, true)).Some?
                   <==> Take(n, LockTimeout(now, true)).None? && 1 <= eta <= remaining
                        && (n.row.minRequiredEta.Some? ==> eta < n.row.minRequiredEta.value)
    ensures n.row.status == AwaitingCustomer ==>
              (Take(n, DecisionTimeout(now, true)).Some? <==> now >= n.row.decisionExpiresAt.value)
              && (Take(n, Accept(now, true)).Some? <==> Take(n, DecisionTimeout(now, true)).None?)
              && (Take(n, Reject(now, true)).Some? <==> Take(n, DecisionTimeout(now, true)).None?)
  {
    if n.attempts != [] { LatestIsLast(n); }
  }

  // ---------------------------------------------------------------- the floor of one minute

  ghost predicate Hopeless(n: Negotiation) {
    Inv(n) && !FloorAllows(n)
  }

  // No proposal is below one minute, so no step leads from such a floor to a customer's decision.
  lemma HopelessStays(n: Negotiation, s: Step)
    requires Hopeless(n)
    ensures n.row.status in {Broadcasting, Locked, Cancelled} && Hopeless(After(n, s))
  {
    StepKeepsInv(n, s);
  }

  lemma {:induction false} HopelessIsNeverConfirmed(n: Negotiation, more: seq<Step>)
    requires Hopeless(n)
    ensures Hopeless(Run(n, more)) && Run(n, more).row.status in {Broadcasting, Locked, Cancelled}
  {
    if more == [] {
      HopelessStays(n, Accept(0, false));
    } else {
      var init, last := more[..|more| - 1], more[|more| - 1];
      HopelessIsNeverConfirmed(n, init);
      HopelessStays(Run(n, init), last);
      HopelessStays(After(Run(n, init), last), last);
    }
  }

  lemma ThreeSteps(n: Negotiation, a: Step, b: Step, c: Step)
    ensures Run(n, [a, b, c]) == After(After(After(n, a), b), c)
  {
    assert [a, b, c][..2] == [a, b] && [a, b][..1] == [a];
    assert [a][..0] == [] && Run(n, []) == n;
    assert Run(n, [a]) == After(n, a);
    assert Run(n, [a, b]) == After(After(n, a), b);
  }

  // ---------------------------------------------------------------- which broadcasts can still be confirmed

  // A proposal is at least a minute, so with less than a minute left no step leads to a customer's decision.
  lemma LateStep(n: Negotiation, s: Step)
    requires n.row.status in {Broadcasting, Locked, Cancelled} && (s.SubmitEta? ==> s.remainingMinutes < 1)
    ensures After(n, s).row.status in {Broadcasting, Locked, Cancelled}
  {
  }

  lemma {:induction false} LateIsNeverConfirmed(n: Negotiation, more: seq<Step>)
    requires n.row.status in {Broadcasting, Locked, Cancelled}
    requires forall s <- more :: s.SubmitEta? ==> s.remainingMinutes < 1
    ensures Run(n, more).row.status in {Broadcasting, Locked, Cancelled}
  {
    if more != [] {
      var init, last := more[..|more| - 1], more[|more| - 1];
      assert forall s <- init :: s in more;
      LateIsNeverConfirmed(n, init);
      LateStep(Run(n, init), last);
    }
  }

  const MINUTE_MS := 60 * 1000

  /** Whole minutes until pickup, rounded down: the limit of a proposal. */
  function RemainingMinutes(pickup: int, now: int): int {
    (pickup - now) / MINUTE_MS
  }

  /** Steps from an instant on, by one clock, for a booking with this pickup time. */
  predicate Timed(steps: seq<Step>, pickup: int, from: int) {
    (forall i :: 0 <= i < |steps| ==> from <= steps[i].now && TellsTime(steps[i], pickup))
    && forall i, j :: 0 <= i < j < |steps| ==> steps[i].now <= steps[j].now
  }

  predicate TellsTime(s: Step, pickup: int) {
    s.SubmitEta? ==> s.remainingMinutes == RemainingMinutes(pickup, s.now)
  }

  lemma MinutesRunOut(pickup: int, from: int, now: int)
    requires from <= now && pickup - from < MINUTE_MS
    ensures RemainingMinutes(pickup, now) < 1
  {
  }

  lemma LockedAtOnce(n: Negotiation, now: int)
    requires Inv(n) && n.row.status == Broadcasting
    ensures var m := After(n, Lock(0, now, true));
            Inv(m) && m.row.status == Locked && m.row.lockedDriver == Some(0)
            && m.row.lockExpiresAt == Some(now + LOCK_MS)
            && m.row.minRequiredEta == n.row.minRequiredEta && m.row.attemptCount == n.row.attemptCount
  {
    LockableExactly(n, 0, now);
    StepKeepsInv(n, Lock(0, now, true));
  }

  lemma ProposedAtOnce(n: Negotiation, remaining: int, now: int)
    requires Inv(n) && n.row.status == Locked && n.row.lockedDriver == Some(0)
    requires n.row.lockExpiresAt == Some(now + LOCK_MS) && FloorAllows(n) && remaining >= 1
    ensures var m := After(n, SubmitEta(0, 1, remaining, now, true));
            Inv(m) && m.row.status == AwaitingCustomer && m.row.decisionExpiresAt == Some(now + DECISION_MS)
            && m.attempts[|m.attempts| - 1].eta == Some(1) && m.row.attemptCount == n.row.attemptCount
  {
    LatestIsLast(n);
    StepKeepsInv(n, SubmitEta(0, 1, remaining, now, true));
  }

  lemma AcceptedAtOnce(n: Negotiation, now: int)
    requires Inv(n) && n.row.status == AwaitingCustomer && n.row.decisionExpiresAt == Some(now + DECISION_MS)
    ensures After(n, Accept(now, true)).row.status == Confirmed
  {
    LatestIsLast(n);
  }

  lemma RejectedAtOnce(n: Negotiation, now: int)
    requires Inv(n) && n.row.status == AwaitingCustomer && n.row.decisionExpiresAt == Some(now + DECISION_MS)
    requires n.attempts[|n.attempts| - 1].eta == Some(1) && n.row.attemptCount == 0
    ensures var m := After(n, Reject(now, true));
            Inv(m) && m.row.status == Broadcasting && m.row.minRequiredEta == Some(1)
  {
    LatestIsLast(n);
    StepKeepsInv(n, Reject(now, true));
  }

  // Lock, propose a minute and answer, all at one instant.
  function AtOnce(pickup: int, now: int, answer: Step): seq<Step> {
    [Lock(0, now, true), SubmitEta(0, 1, RemainingMinutes(pickup, now), now, true), answer]
  }

  lemma AtOnceIsTimed(pickup: int, now: int, answer: Step)
    requires answer == Accept(now, true) || answer == Reject(now, true)
    ensures Timed(AtOnce(pickup, now, answer), pickup, now)
  {
  }

  lemma AwaitingAtOnce(n: Negotiation, pickup: int, now: int) returns (m: Negotiation)
    requires Inv(n) && n.row.status == Broadcasting && FloorAllows(n) && pickup - now >= MINUTE_MS
    ensures m == After(After(n, Lock(0, now, true)), SubmitEta(0, 1, RemainingMinutes(pickup, now), now, true))
    ensures Inv(m) && m.row.status == AwaitingCustomer && m.row.decisionExpiresAt == Some(now + DECISION_MS)
    ensures m.attempts[|m.attempts| - 1].eta == Some(1) && m.row.attemptCount == n.row.attemptCount
  {
    var n1 := After(n, Lock(0, now, true));
    LockedAtOnce(n, now);
    ProposedAtOnce(n1, RemainingMinutes(pickup, now), now);
    m := After(n1, SubmitEta(0, 1, RemainingMinutes(pickup, now), now, true));
  }

  lemma ConfirmedAtOnce(n: Negotiation, pickup: int, now: int)
    requires Inv(n) && n.row.status == Broadcasting && FloorAllows(n) && pickup - now >= MINUTE_MS
    ensures Run(n, AtOnce(pickup, now, Accept(now, true))).row.status == Confirmed
  {
    var m := AwaitingAtOnce(n, pickup, now);
    AcceptedAtOnce(m, now);
    ThreeSteps(n, Lock(0, now, true), SubmitEta(0, 1, RemainingMinutes(pickup, now), now, true), Accept(now, true));
  }

  lemma CannotConfirm(n: Negotiation, more: seq<Step>, pickup: int, from: int)
    requires Inv(n) && n.row.status == Broadcasting && Timed(more, pickup, from)
    requires !FloorAllows(n) || pickup - from < MINUTE_MS
    ensures Run(n, more).row.status != Confirmed
  {
    if !FloorAllows(n) {
      HopelessIsNeverConfirmed(n, more);
    } else {
      forall s | s in more && s.SubmitEta? ensures s.remainingMinutes < 1 {
        var i :| 0 <= i < |more| && more[i] == s;
        assert from <= more[i].now && TellsTime(more[i], pickup);
        MinutesRunOut(pickup, from, s.now);
      }
      LateIsNeverConfirmed(n, more);
    }
  }

  /**
   * From an instant on, a broadcast can still end in a confirmation exactly when at least a minute
   * remains until pickup and no one-minute proposal has been rejected: otherwise it is locked and
   * broadcast until its attempts are used up.
   */
  lemma {:induction false} ConfirmableExactly(n: Negotiation, pickup: int, from: int)
    requires Inv(n) && n.row.status == Broadcasting
    ensures (exists more :: Timed(more, pickup, from) && Run(n, more).row.status == Confirmed)
       <==> FloorAllows(n) && pickup - from >= MINUTE_MS
  {
    if FloorAllows(n) && pickup - from >= MINUTE_MS {
      ConfirmedAtOnce(n, pickup, from);
      AtOnceIsTimed(pickup, from, Accept(from, true));
    } else {
      forall more | Timed(more, pickup, from) ensures Run(n, more).row.status != Confirmed {
        CannotConfirm(n, more, pickup, from);
      }
    }
  }

  /** A floor of one minute is reachable: one driver proposes a minute and the customer rejects it. */
  lemma HopelessIsReachable(pickup: int, now: int)
    requires pickup - now >= MINUTE_MS
    ensures var steps := AtOnce(pickup, now, Reject(now, true));
            Timed(steps, pickup, now) && Hopeless(Run(NEW, steps)) && Run(NEW, steps).row.status == Broadcasting
  {
    var none: seq<Step> := [];
    assert Run(NEW, none) == NEW;
    RunKeepsInv(none);
    var m := AwaitingAtOnce(NEW, pickup, now);
    RejectedAtOnce(m, now);
    AtOnceIsTimed(pickup, now, Reject(now, true));
    ThreeSteps(NEW, Lock(0, now, true), SubmitEta(0, 1, RemainingMinutes(pickup, now), now, true), Reject(now, true));
  }
}
