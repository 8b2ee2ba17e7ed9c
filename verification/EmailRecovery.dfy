/**
 * What an interrupted, superseded or retried send can still become, and what happens to the
 * ledger when its one discipline is broken.
 */
module EmailRecovery {
  import opened Basics
  import opened EmailPolicy
  import opened EmailLedger
  import opened EmailSafety

  // ---------------------------------------------------------------- outcomes are write-once

  /** Once an attempt has an outcome its row never changes again. */
  lemma {:induction false} OutcomesAreFinal(t: Tables, steps: seq<Step>, a: nat)
    requires IsRun(t, steps) && a < |t.attempts| && t.attempts[a].evidence.outcome != Sending
    ensures var u := Run(t, steps); a < |u.attempts| && u.attempts[a] == t.attempts[a]
    decreases |steps|
  {
    if steps != [] { OutcomesAreFinal(Apply(t, steps[0]), steps[1..], a); }
  }

  // ---------------------------------------------------------------- a crash after the reservation

  // Delivery `d` is reserved by attempt `a`, whose sender has not reported back.
  ghost predicate InFlight(t: Tables, d: nat, a: nat) {
    d < |t.deliveries| && t.deliveries[d].lastError == Some(SEND_RESERVED)
    && IsLatestAttempt(t, d, a) && t.attempts[a].evidence.outcome == Sending
  }

  // The sender reports its outcome, or anyone records a status of the delivery.
  predicate ReportsBack(s: Step, d: nat, a: nat) {
    (s.Record? && s.d == d) || (s.Finish? && s.a == a)
  }

  lemma InFlightRefuses(t: Tables, n: nat, d: nat, a: nat, recovery: Option<Recovery>)
    requires InFlight(t, d, a) && n < |t.notifications|
    ensures !ClaimAnswer(t, n, d, recovery).Allowed?
    ensures !SweepTakes(t.deliveries[d])
  {
    ReservationTexts();
    assert StartsWith(Some(SEND_RESERVED), "PERMANENT_");
    assert recovery.Some? && recovery.value.expectedAttemptId != a ==>
        !IsLatestAttempt(t, d, recovery.value.expectedAttemptId);
  }

  lemma InFlightStays(t: Tables, s: Step, d: nat, a: nat)
    requires Enabled(t, s) && InFlight(t, d, a) && !ReportsBack(s, d, a)
    ensures InFlight(Apply(t, s), d, a)
  {
    assert HasAttempt(t, d);
    if s.ClaimEmail? { InFlightRefuses(t, s.n, d, a, s.recovery); }
  }

  /**
   * A sender that dies between reservation and report blocks its delivery for good: no run without
   * its report, and in which nobody else records a status of the delivery either, ever sends that
   * delivery again, by a worker, by the recovery sweep or by a human retry.
   */
  lemma {:induction false} CrashedSendIsNotRepeated(t: Tables, steps: seq<Step>, n: nat, d: nat, a: nat,
                                                    recovery: Option<Recovery>)
    requires IsRun(t, steps) && InFlight(t, d, a)
    requires forall s :: s in steps ==> !ReportsBack(s, d, a)
    ensures var u := Run(t, steps);
            InFlight(u, d, a) && !SweepTakes(u.deliveries[d])
            && (n < |u.notifications| ==> !ClaimAnswer(u, n, d, recovery).Allowed?)
    decreases |steps|
  {
    if steps == [] {
      ReservationTexts();
      assert StartsWith(Some(SEND_RESERVED), "PERMANENT_");
      if n < |t.notifications| { InFlightRefuses(t, n, d, a, recovery); }
    } else {
      InFlightStays(t, steps[0], d, a);
      CrashedSendIsNotRepeated(Apply(t, steps[0]), steps[1..], n, d, a, recovery);
    }
  }

  lemma UnreportedStays(t: Tables, s: Step, a: nat)
    requires Enabled(t, s) && a < |t.attempts| && t.attempts[a].evidence.outcome == Sending
    requires !(s.Finish? && s.a == a)
    ensures var u := Apply(t, s);
            a < |u.attempts| && u.attempts[a].evidence.outcome == Sending
            && u.attempts[a].deliveryId == t.attempts[a].deliveryId
  {
  }

  lemma {:induction false} UnreportedStaysOverRuns(t: Tables, steps: seq<Step>, a: nat)
    requires IsRun(t, steps) && a < |t.attempts| && t.attempts[a].evidence.outcome == Sending
    requires forall s <- steps :: !(s.Finish? && s.a == a)
    ensures var u := Run(t, steps);
            a < |u.attempts| && u.attempts[a].evidence.outcome == Sending
            && u.attempts[a].deliveryId == t.attempts[a].deliveryId
    decreases |steps|
  {
    if steps != [] {
      assert steps[0] in steps;
      UnreportedStays(t, steps[0], a);
      UnreportedStaysOverRuns(Apply(t, steps[0]), steps[1..], a);
    }
  }

  /**
   * Under the discipline the dead sender's own silence is enough, whatever status others record: no
   * later claim of the same booking and slot goes through, nor any claim of the delivery itself.
   */
  lemma UnreportedSendBlocksItsSlot(t: Tables, steps: seq<Step>, a: nat, n: nat, d: nat, recovery: Option<Recovery>)
    requires Inv(t) && IsDisciplinedRun(t, steps) && a < |t.attempts|
    requires t.attempts[a].evidence.outcome == Sending && forall s <- steps :: !(s.Finish? && s.a == a)
    requires var u := Run(t, steps);
             Enabled(u, ClaimEmail(n, d, recovery)) && d < |u.deliveries| && a < |u.attempts|
             && (u.attempts[a].deliveryId == d
                 || (u.notifications[n].bookingId.Some?
                     && AttemptIsFor(u, a, u.notifications[n].bookingId.value, SlotOf(u, d))))
    ensures !ClaimAnswer(Run(t, steps), n, d, recovery).Allowed?
  {
    RunKeepsInv(t, steps);
    UnreportedStaysOverRuns(t, steps, a);
    if ClaimAnswer(Run(t, steps), n, d, recovery).Allowed? {
      ClaimedSlotWasRefused(Run(t, steps), n, d, recovery, a);
    }
  }

  /** Every claim that goes through leaves exactly such a reservation behind. */
  lemma ClaimReserves(t: Tables, n: nat, d: nat, recovery: Option<Recovery>)
    requires n < |t.notifications| && ClaimAnswer(t, n, d, recovery).Allowed?
    ensures InFlight(Claim(t, n, d, recovery), d, ClaimAnswer(t, n, d, recovery).attemptId)
  {
    assert d < |t.deliveries|;
  }

  // ---------------------------------------------------------------- supersession

  /** What an administrator approves, and the metadata record that names it. */
  datatype Document = TripDocument | BookingConfirmation

  function RecordOf(b: Booking, doc: Document): Option<nat> {
    match doc
    case TripDocument => b.adminReceipt
    case BookingConfirmation => b.adminBooking
  }

  /** An approved trip document replaces every customer e-mail, a confirmation only other confirmations. */
  predicate Governs(doc: Document, kind: string) {
    doc.TripDocument? || kind == "BOOKING_CREATED"
  }

  predicate KeepsRecord(s: Step, doc: Document, bookingId: nat, n: nat) {
    (s.ChangeBooking? && s.bookingId == bookingId ==> RecordOf(s.booking, doc) == Some(n))
    && (s.ApproveTripDocument? && s.bookingId == bookingId && doc.TripDocument? ==> s.n == n)
    && (s.ApproveConfirmation? && s.bookingId == bookingId && doc.BookingConfirmation? ==> s.n == n)
  }

  predicate RecordStands(t: Tables, doc: Document, bookingId: nat, n: nat) {
    bookingId < |t.bookings| && RecordOf(t.bookings[bookingId], doc) == Some(n)
  }

  // A customer e-mail of the booking that the approval governs.
  predicate Governed(t: Tables, doc: Document, bookingId: nat, d: nat) {
    CustomerEmailOf(t, d, bookingId) && Governs(doc, t.notifications[t.deliveries[d].notificationId].kind)
  }

  /**
   * After an administrator approved notification `n` for a booking, every attempt opened while
   * that record stands, of an e-mail it governs, belongs to `n`, however the run continues.
   */
  lemma {:induction false} ApprovedDocumentIsTheOnlyOne(t: Tables, steps: seq<Step>, doc: Document, bookingId: nat,
                                                        n: nat, a: nat)
    requires IsRun(t, steps) && RowsRefer(t) && RecordStands(t, doc, bookingId, n)
    requires forall s :: s in steps ==> KeepsRecord(s, doc, bookingId, n)
    requires |t.attempts| <= a < |Run(t, steps).attempts|
    requires Governed(Run(t, steps), doc, bookingId, Run(t, steps).attempts[a].deliveryId)
    ensures var u := Run(t, steps); u.deliveries[u.attempts[a].deliveryId].notificationId == n
    decreases |steps|
  {
    var t1 := Apply(t, steps[0]);
    assert KeepsRecord(steps[0], doc, bookingId, n);
    RecordStaysAndGoverns(t, steps[0], doc, bookingId, n);
    if a < |t1.attempts| {
      RunKeepsPlaces(t1, steps[1..], t1.attempts[a].deliveryId, a);
    } else {
      ApprovedDocumentIsTheOnlyOne(t1, steps[1..], doc, bookingId, n, a);
    }
  }

  lemma RecordStaysAndGoverns(t: Tables, s: Step, doc: Document, bookingId: nat, n: nat)
    requires Enabled(t, s) && RowsRefer(t) && KeepsRecord(s, doc, bookingId, n) && RecordStands(t, doc, bookingId, n)
    ensures var u := Apply(t, s);
            RowsRefer(u) && |u.attempts| <= |t.attempts| + 1 && RecordStands(u, doc, bookingId, n)
            && (|t.attempts| < |u.attempts| ==>
                  var d := u.attempts[|t.attempts|].deliveryId;
                  d < |u.deliveries| && (Governed(u, doc, bookingId, d) ==> u.deliveries[d].notificationId == n))
  {
    StepKeepsRefs(t, s);
    if s.ClaimEmail? && ClaimAnswer(t, s.n, s.d, s.recovery).Allowed? && Governed(t, doc, bookingId, s.d) {
      ClaimObeysRecord(t, s.n, s.d, s.recovery, doc, bookingId, n);
    }
  }

  lemma ClaimObeysRecord(t: Tables, m: nat, d: nat, recovery: Option<Recovery>, doc: Document, bookingId: nat, n: nat)
    requires Enabled(t, ClaimEmail(m, d, recovery)) && RecordStands(t, doc, bookingId, n)
    requires ClaimAnswer(t, m, d, recovery).Allowed? && Governed(t, doc, bookingId, d)
    ensures m == n
  {
  }

  lemma StepKeepsRefs(t: Tables, s: Step)
    requires Enabled(t, s) && RowsRefer(t)
    ensures RowsRefer(Apply(t, s))
  {
  }

  lemma StepKeepsPlaces(t: Tables, s: Step, d: nat, a: nat)
    requires Enabled(t, s) && RowsRefer(t) && d < |t.deliveries| && a < |t.attempts|
    ensures var u := Apply(t, s);
            RowsRefer(u) && d < |u.deliveries| && a < |u.attempts|
            && u.deliveries[d].notificationId == t.deliveries[d].notificationId < |t.notifications| <= |u.notifications|
            && u.deliveries[d].channel == t.deliveries[d].channel
            && SameToHistory(u.notifications[t.deliveries[d].notificationId],
                             t.notifications[t.deliveries[d].notificationId])
            && u.attempts[a].deliveryId == t.attempts[a].deliveryId
  {
    StepKeepsRefs(t, s);
  }

  // What a row refers to never changes.
  lemma {:induction false} RunKeepsPlaces(t: Tables, steps: seq<Step>, d: nat, a: nat)
    requires IsRun(t, steps) && RowsRefer(t) && d < |t.deliveries| && a < |t.attempts|
    ensures var u := Run(t, steps);
            d < |u.deliveries| && a < |u.attempts|
            && u.deliveries[d].notificationId == t.deliveries[d].notificationId < |t.notifications| <= |u.notifications|
            && u.deliveries[d].channel == t.deliveries[d].channel
            && SameToHistory(u.notifications[t.deliveries[d].notificationId],
                             t.notifications[t.deliveries[d].notificationId])
            && u.attempts[a].deliveryId == t.attempts[a].deliveryId
    decreases |steps|
  {
    if steps != [] {
      StepKeepsPlaces(t, steps[0], d, a);
      RunKeepsPlaces(Apply(t, steps[0]), steps[1..], d, a);
    }
  }

  // ---------------------------------------------------------------- retries need approval

  function Attempts(attempts: seq<Attempt>, d: nat): nat {
    if attempts == [] then 0
    else Attempts(attempts[..|attempts| - 1], d) + if attempts[|attempts| - 1].deliveryId == d then 1 else 0
  }

  function Approvals(reviews: seq<Review>, d: nat): nat {
    if reviews == [] then 0
    else
      var last := reviews[|reviews| - 1];
      Approvals(reviews[..|reviews| - 1], d) + if last.deliveryId == d && last.action == RetryApproved then 1 else 0
  }

  ghost predicate RetriesApproved(t: Tables) {
    forall d: nat :: Attempts(t.attempts, d) <= 1 + Approvals(t.reviews, d)
  }

  lemma {:induction false} AttemptsDependOnOwners(a: seq<Attempt>, b: seq<Attempt>, d: nat)
    requires |a| == |b| && forall i :: 0 <= i < |a| ==> a[i].deliveryId == b[i].deliveryId
    ensures Attempts(a, d) == Attempts(b, d)
  {
    if a != [] { AttemptsDependOnOwners(a[..|a| - 1], b[..|b| - 1], d); }
  }

  lemma {:induction false} NoneCounted(a: seq<Attempt>, d: nat)
    requires forall i :: 0 <= i < |a| ==> a[i].deliveryId != d
    ensures Attempts(a, d) == 0
  {
    if a != [] { NoneCounted(a[..|a| - 1], d); }
  }

  lemma AppendCounts(attempts: seq<Attempt>, x: Attempt, reviews: seq<Review>, r: Review, d: nat)
    ensures Attempts(attempts + [x], d) == Attempts(attempts, d) + if x.deliveryId == d then 1 else 0
    ensures Approvals(reviews + [r], d)
         == Approvals(reviews, d) + if r.deliveryId == d && r.action == RetryApproved then 1 else 0
  {
    assert (attempts + [x])[..|attempts|] == attempts;
    assert (reviews + [r])[..|reviews|] == reviews;
  }

  // The send history sees every delivery that ever reached SMTP, refused or not.
  ghost predicate AttemptsRemembered(t: Tables) {
    forall a :: 0 <= a < |t.attempts| ==> Remembered(t, t.attempts[a].deliveryId)
  }

  predicate Remembered(t: Tables, d: nat) {
    d < |t.deliveries| && Counted(t, d)
  }

  ghost predicate StrictInv(t: Tables) {
    Inv(t) && AttemptsRemembered(t)
  }

  /** The stronger discipline that also keeps refused deliveries from being forgotten. */
  predicate RecordKeepsAttempt(t: Tables, d: nat, status: Status, error: Option<string>) {
    HasAttempt(t, d) && !Confirmed(t, d) ==> StaysCounted(status, error)
  }

  predicate Strict(t: Tables, s: Step) {
    s.Record? ==> RecordKeepsAttempt(t, s.d, s.status, s.error)
  }

  ghost predicate IsStrictRun(t: Tables, steps: seq<Step>): (ok: bool)
    ensures ok ==> IsRun(t, steps)
    decreases |steps|
  {
    steps == []
    || (Enabled(t, steps[0]) && Strict(t, steps[0]) && IsStrictRun(Apply(t, steps[0]), steps[1..]))
  }

  lemma StrictIsDisciplined(t: Tables, s: Step)
    requires Strict(t, s)
    ensures Disciplined(t, s)
  {
    if s.Record? && MaybeSent(t, s.d) {
      assert HasAttempt(t, s.d);
    }
  }

  lemma StepKeepsRemembered(t: Tables, s: Step)
    requires StrictInv(t) && Enabled(t, s) && Strict(t, s)
    ensures AttemptsRemembered(Apply(t, s))
  {
    var u := Apply(t, s);
    if s.ClaimEmail? { ReservationTexts(); }
    forall a | 0 <= a < |u.attempts| ensures Remembered(u, u.attempts[a].deliveryId) {
      if a < |t.attempts| {
        StepRemembers(t, s, a);
      } else {
        assert s.ClaimEmail? && RowCounts(u.deliveries[s.d]);
      }
    }
  }

  lemma StepRemembers(t: Tables, s: Step, a: nat)
    requires StrictInv(t) && Enabled(t, s) && Strict(t, s) && a < |t.attempts|
    ensures var u := Apply(t, s);
            a < |u.attempts| && u.attempts[a].deliveryId == t.attempts[a].deliveryId
            && Remembered(u, t.attempts[a].deliveryId)
  {
    var u, d := Apply(t, s), t.attempts[a].deliveryId;
    ReservationTexts();
    assert Remembered(t, d) && HasAttempt(t, d) && AttemptCounted(t, a);
    if Confirmed(t, d) {
      ConfirmationsStay(t, u, d);
    } else {
      assert RowCounts(u.deliveries[d]);
    }
  }

  // A worker's own claim never reopens a delivery that already reached SMTP.
  lemma PlainClaimIsFirst(t: Tables, n: nat, d: nat)
    requires StrictInv(t) && Enabled(t, ClaimEmail(n, d, None)) && ClaimAnswer(t, n, d, None).Allowed?
    ensures !HasAttempt(t, d)
  {
    if a :| 0 <= a < |t.attempts| && t.attempts[a].deliveryId == d {
      ClaimedDeliveryIsCustomers(t, n, d, None);
      assert Remembered(t, t.attempts[a].deliveryId);
      assert InHistory(t, t.notifications[n].bookingId.value, None, d);
    }
  }

  lemma ClaimKeepsApproved(t: Tables, n: nat, d: nat, recovery: Option<Recovery>)
    requires StrictInv(t) && RetriesApproved(t) && Enabled(t, ClaimEmail(n, d, recovery))
    ensures RetriesApproved(Claim(t, n, d, recovery))
  {
    var answer := ClaimAnswer(t, n, d, recovery);
    if answer.Allowed? {
      if recovery.None? {
        PlainClaimIsFirst(t, n, d);
        NoneCounted(t.attempts, d);
      }
      var r := Review(d, Some(recovery.GetOr(Recovery(0)).expectedAttemptId), RetryApproved);
      var u := Claim(t, n, d, recovery);
      forall e: nat ensures Attempts(u.attempts, e) <= 1 + Approvals(u.reviews, e) {
        AppendCounts(t.attempts, Attempt(d, FRESH, answer.envelope), t.reviews, r, e);
        assert Attempts(t.attempts, e) <= 1 + Approvals(t.reviews, e);
      }
    }
  }

  lemma StepKeepsApproved(t: Tables, s: Step)
    requires StrictInv(t) && RetriesApproved(t) && Enabled(t, s)
    ensures RetriesApproved(Apply(t, s))
  {
    var u := Apply(t, s);
    if s.ClaimEmail? {
      ClaimKeepsApproved(t, s.n, s.d, s.recovery);
    } else {
      forall d: nat ensures Attempts(u.attempts, d) <= 1 + Approvals(u.reviews, d) {
        assert Attempts(t.attempts, d) <= 1 + Approvals(t.reviews, d);
        AttemptsDependOnOwners(t.attempts, u.attempts, d);
        if s.ReviewEmail? && Reviewable(t, s.d) {
          var review := Review(s.d, LatestAttempt(t.attempts, s.d), s.action);
          AppendCounts(t.attempts, Attempt(0, FRESH, None), t.reviews, review, d);
        }
      }
    }
  }

  /** SMTP is retried only by a human: a delivery has at most one attempt more than approved retries. */
  lemma {:induction false} EveryRetryWasApproved(t: Tables, steps: seq<Step>, d: nat)
    requires StrictInv(t) && RetriesApproved(t) && IsStrictRun(t, steps)
    ensures var u := Run(t, steps); Attempts(u.attempts, d) <= 1 + Approvals(u.reviews, d)
    decreases |steps|
  {
    if steps != [] {
      StrictIsDisciplined(t, steps[0]);
      StepKeepsInv(t, steps[0]);
      StepKeepsRemembered(t, steps[0]);
      StepKeepsApproved(t, steps[0]);
      EveryRetryWasApproved(Apply(t, steps[0]), steps[1..], d);
    }
  }

  // ---------------------------------------------------------------- when the discipline is broken

  /** The discipline is exactly what the ledger's invariant needs of a status update. */
  lemma RecordKeepsInvExactly(t: Tables, d: nat, status: Status, error: Option<string>, increment: bool)
    requires Inv(t)
    ensures Inv(UpdateStatus(t, d, status, error, increment)) <==> RecordKeepsSend(t, d, status, error)
  {
    var s := Record(d, status, error, increment);
    if RecordKeepsSend(t, d, status, error) {
      RecordStep(t, s);
    } else {
      var u := UpdateStatus(t, d, status, error, increment);
      var a :| 0 <= a < |t.attempts| && PossiblyAccepted(t, a) && t.attempts[a].deliveryId == d;
      assert AttemptCounted(t, a);
      RecordForgets(t, d, status, error, increment, 0, d);
      assert PossiblyAccepted(u, a) && !AttemptCounted(u, a);
    }
  }

  // A status update that does not keep counting an unconfirmed delivery removes just that delivery from the history.
  lemma RecordForgets(t: Tables, d: nat, status: Status, error: Option<string>, increment: bool, bookingId: nat, e: nat)
    requires d < |t.deliveries| && !Confirmed(t, d) && !StaysCounted(status, error)
    ensures var u := UpdateStatus(t, d, status, error, increment);
            !Counted(u, d) && (InHistory(u, bookingId, None, e) <==> InHistory(t, bookingId, Some(d), e))
  {
    var u := UpdateStatus(t, d, status, error, increment);
    assert Confirmed(u, e) <==> Confirmed(t, e);
    assert Confirmed(u, d) <==> Confirmed(t, d);
  }

  /** What the booking and the policy ask of one more e-mail once delivery `d` is forgotten. */
  ghost predicate MaySendAgain(t: Tables, bookingId: nat, n: nat, kind: string, d: nat) {
    bookingId < |t.bookings| && !t.bookings[bookingId].deleted
    && !SupersededByBooking(t.bookings[bookingId], n, kind) && !SupersededByReceipt(t.bookings[bookingId], n)
    && PolicyPermits(t, bookingId, kind, Some(d))
  }

  lemma PolicyForgets(t: Tables, u: Tables, d: nat, bookingId: nat, kind: string)
    requires RowsRefer(t) && RowsRefer(u) && u.bookings == t.bookings && bookingId < |t.bookings|
    requires forall e: nat :: InHistory(u, bookingId, None, e) <==> InHistory(t, bookingId, Some(d), e)
    requires forall e: nat :: e < |t.deliveries| ==> e < |u.deliveries| && SlotOf(u, e) == SlotOf(t, e)
    ensures PolicyPermits(u, bookingId, kind, None) <==> PolicyPermits(t, bookingId, kind, Some(d))
  {
  }

  // The rest of a run that tries to send the same slot a second time.
  function SecondSend(t: Tables, d: nat, bookingId: nat, kind: string, status: Status,
                      error: Option<string>): seq<Step> {
    [Record(d, status, error, true),
     AddNotification(Notification(Some(bookingId), kind, GUEST)),
     AddDelivery(Delivery(|t.notifications|, Email, Pending, 0, None)),
     ClaimEmail(|t.notifications|, |t.deliveries|, None)]
  }

  // The tables when the second claim comes.
  function BeforeSecondSend(t: Tables, d: nat, bookingId: nat, kind: string, status: Status,
                            error: Option<string>): Tables {
    var u := UpdateStatus(t, d, status, error, true);
    u.(notifications := u.notifications + [Notification(Some(bookingId), kind, GUEST)],
       deliveries := u.deliveries + [Delivery(|u.notifications|, Email, Pending, 0, None)])
  }

  lemma NewDeliveryIsUncounted(t: Tables, d: nat, bookingId: nat, kind: string, status: Status,
                               error: Option<string>, e: nat)
    requires RowsRefer(t) && d < |t.deliveries| && !Confirmed(t, d) && !StaysCounted(status, error)
    ensures InHistory(BeforeSecondSend(t, d, bookingId, kind, status, error), bookingId, None, e)
       <==> InHistory(t, bookingId, Some(d), e)
  {
    var u, v := UpdateStatus(t, d, status, error, true), BeforeSecondSend(t, d, bookingId, kind, status, error);
    RecordForgets(t, d, status, error, true, bookingId, e);
    assert Confirmed(v, e) <==> Confirmed(u, e);
    if e < |t.deliveries| {
      assert v.deliveries[e] == u.deliveries[e];
    }
  }

  lemma FourSteps(t: Tables, steps: seq<Step>)
    requires |steps| == 4
    requires Enabled(t, steps[0])
    requires var t1 := Apply(t, steps[0]); Enabled(t1, steps[1])
    requires var t2 := Apply(Apply(t, steps[0]), steps[1]); Enabled(t2, steps[2])
    requires var t3 := Apply(Apply(Apply(t, steps[0]), steps[1]), steps[2]); Enabled(t3, steps[3])
    ensures IsRun(t, steps)
    ensures Run(t, steps) == Apply(Apply(Apply(Apply(t, steps[0]), steps[1]), steps[2]), steps[3])
  {
    var t1 := Apply(t, steps[0]);
    var t2 := Apply(t1, steps[1]);
    var t3 := Apply(t2, steps[2]);
    var t4 := Apply(t3, steps[3]);
    assert steps[1..][0] == steps[1] && steps[1..][1..] == steps[2..];
    assert steps[2..][0] == steps[2] && steps[2..][1..] == steps[3..];
    assert steps[3..][0] == steps[3] && steps[3..][1..] == [];
    assert IsRun(t4, []) && Run(t4, []) == t4;
    assert IsRun(t3, steps[3..]) && Run(t3, steps[3..]) == t4;
    assert IsRun(t2, steps[2..]) && Run(t2, steps[2..]) == t4;
    assert IsRun(t1, steps[1..]) && Run(t1, steps[1..]) == t4;
  }

  lemma SecondPolicyExactly(t: Tables, d: nat, bookingId: nat, kind: string, status: Status, error: Option<string>)
    requires RowsRefer(t) && d < |t.deliveries| && bookingId < |t.bookings|
    requires !Confirmed(t, d) && !StaysCounted(status, error)
    ensures PolicyError(BeforeSecondSend(t, d, bookingId, kind, status, error), bookingId, kind, None).None?
       <==> PolicyPermits(t, bookingId, kind, Some(d))
  {
    var v := BeforeSecondSend(t, d, bookingId, kind, status, error);
    forall e: nat ensures InHistory(v, bookingId, None, e) <==> InHistory(t, bookingId, Some(d), e) {
      NewDeliveryIsUncounted(t, d, bookingId, kind, status, error, e);
    }
    PolicyForgets(t, v, d, bookingId, kind);
    PolicyPermitsExactly(v, bookingId, kind, None);
  }

  lemma SecondClaimExactly(t: Tables, d: nat, bookingId: nat, kind: string, status: Status, error: Option<string>)
    requires RowsRefer(t) && d < |t.deliveries| && bookingId < |t.bookings|
    requires !Confirmed(t, d) && !StaysCounted(status, error)
    ensures var v := BeforeSecondSend(t, d, bookingId, kind, status, error);
            var answer := ClaimAnswer(v, |t.notifications|, |t.deliveries|, None);
            (answer.Allowed? <==> MaySendAgain(t, bookingId, |t.notifications|, kind, d))
            && (answer.Allowed? ==> answer == Allowed(|t.attempts|, None))
  {
    SecondPolicyExactly(t, d, bookingId, kind, status, error);
  }

  lemma SecondSendStates(t: Tables, d: nat, bookingId: nat, kind: string, status: Status, error: Option<string>)
    requires d < |t.deliveries| && bookingId < |t.bookings|
    ensures var steps := SecondSend(t, d, bookingId, kind, status, error);
            Enabled(t, steps[0]) && Enabled(Apply(t, steps[0]), steps[1])
            && Enabled(Apply(Apply(t, steps[0]), steps[1]), steps[2])
            && Apply(Apply(Apply(t, steps[0]), steps[1]), steps[2])
               == BeforeSecondSend(t, d, bookingId, kind, status, error)
  {
  }

  lemma SecondSendSteps(t: Tables, d: nat, bookingId: nat, kind: string, status: Status, error: Option<string>)
    requires d < |t.deliveries| && bookingId < |t.bookings|
    ensures var steps := SecondSend(t, d, bookingId, kind, status, error);
            var v := BeforeSecondSend(t, d, bookingId, kind, status, error);
            IsRun(t, steps) && Run(t, steps) == Claim(v, |t.notifications|, |t.deliveries|, None)
  {
    SecondSendStates(t, d, bookingId, kind, status, error);
    FourSteps(t, SecondSend(t, d, bookingId, kind, status, error));
  }

  /**
   * Why the discipline matters. The status update itself has no guard, so a worker that read the
   * notification before the booking had an address may record its verdict after another worker
   * sent the e-mail. From any state the invariant allows, the next notification of the same kind
   * is then sent too, exactly when its booking and the rest of the send history permit it.
   */
  lemma LateVerdictAllowsSecondEmail(t: Tables, a: nat, status: Status, error: Option<string>, bookingId: nat)
    requires Inv(t) && PossiblyAccepted(t, a)
    requires CustomerEmailOf(t, t.attempts[a].deliveryId, bookingId)
    requires !RecordKeepsSend(t, t.attempts[a].deliveryId, status, error)
    ensures var d, b := t.attempts[a].deliveryId, |t.attempts|;
            var kind := t.notifications[t.deliveries[d].notificationId].kind;
            var steps := SecondSend(t, d, bookingId, kind, status, error);
            IsRun(t, steps)
            && var u := Run(t, steps);
               PossiblyAccepted(u, a) && AttemptIsFor(u, a, bookingId, SlotOf(t, d))
               && (MaySendAgain(t, bookingId, |t.notifications|, kind, d)
                   <==> PossiblyAccepted(u, b) && AttemptIsFor(u, b, bookingId, SlotOf(t, d)))
  {
    var d := t.attempts[a].deliveryId;
    var kind := t.notifications[t.deliveries[d].notificationId].kind;
    SecondClaimExactly(t, d, bookingId, kind, status, error);
    SecondSendSteps(t, d, bookingId, kind, status, error);
  }

  lemma ForgottenPolicyExactly(t: Tables, d: nat, status: Status, error: Option<string>, increment: bool,
                               bookingId: nat, kind: string)
    requires RowsRefer(t) && d < |t.deliveries| && bookingId < |t.bookings|
    requires !Confirmed(t, d) && !StaysCounted(status, error)
    ensures PolicyError(UpdateStatus(t, d, status, error, increment), bookingId, kind, None).None?
       <==> PolicyPermits(t, bookingId, kind, Some(d))
  {
    var u := UpdateStatus(t, d, status, error, increment);
    forall e: nat ensures InHistory(u, bookingId, None, e) <==> InHistory(t, bookingId, Some(d), e) {
      RecordForgets(t, d, status, error, increment, bookingId, e);
    }
    PolicyForgets(t, u, d, bookingId, kind);
    PolicyPermitsExactly(u, bookingId, kind, None);
  }

  /**
   * A claim of a forgotten delivery, without a human, is allowed exactly when the delivery was not
   * skipped and its booking and the rest of the send history permit it. The recovery sweep leaves
   * it alone, so such a claim is one of a worker that read the delivery before it was forgotten.
   */
  lemma ForgottenDeliveryIsClaimableExactly(t: Tables, d: nat, status: Status, error: Option<string>, increment: bool,
                                            bookingId: nat)
    requires RowsRefer(t) && CustomerEmailOf(t, d, bookingId) && !RecordKeepsAttempt(t, d, status, error)
    ensures var n := t.deliveries[d].notificationId;
            var u := UpdateStatus(t, d, status, error, increment);
            (ClaimAnswer(u, n, d, None).Allowed?
             <==> status != Skipped && MaySendAgain(t, bookingId, n, t.notifications[n].kind, d))
            && !SweepTakes(u.deliveries[d])
  {
    assert StartsWith(Some(INVALID_RECIPIENT), "PERMANENT_");
    ForgottenPolicyExactly(t, d, status, error, increment, bookingId,
                           t.notifications[t.deliveries[d].notificationId].kind);
    if StartsWith(error, PERMANENT_EMAIL) { PrefixIsLike(error); }
  }

  lemma {:induction false} RunAppend(t: Tables, first: seq<Step>, rest: seq<Step>)
    requires IsRun(t, first) && IsRun(Run(t, first), rest)
    ensures IsRun(t, first + rest) && Run(t, first + rest) == Run(Run(t, first), rest)
    decreases |first|
  {
    if first == [] {
      assert first + rest == rest;
    } else {
      assert (first + rest)[1..] == first[1..] + rest;
      RunAppend(Apply(t, first[0]), first[1..], rest);
    }
  }

  const GUEST := Addressee(Some(CUSTOMER), true, None, false, false)

  // A guest's trip ends and its e-mail is handed to SMTP.
  const FIRST_SEND: seq<Step> := [
    AddBooking(Booking(false, None, None, false)),
    AddNotification(Notification(Some(0), "TRIP_ENDED", GUEST)),
    AddDelivery(Delivery(0, Email, Pending, 0, None)),
    ClaimEmail(0, 0, None)]

  const SENT := Tables([Booking(false, None, None, false)], [Notification(Some(0), "TRIP_ENDED", GUEST)],
                       [Delivery(0, Email, Pending, 1, Some(SEND_RESERVED))], [Attempt(0, FRESH, None)], [])

  lemma FirstSendRuns()
    ensures IsRun(EMPTY, FIRST_SEND) && Run(EMPTY, FIRST_SEND) == SENT
  {
    var t1 := Apply(EMPTY, FIRST_SEND[0]);
    var t2 := Apply(t1, FIRST_SEND[1]);
    var t3 := Apply(t2, FIRST_SEND[2]);
    assert History(t3, 0, None) == {};
    assert ClaimAnswer(t3, 0, 0, None) == Allowed(0, None);
    FourSteps(EMPTY, FIRST_SEND);
  }

  lemma SentIsSound()
    ensures Inv(SENT) && CustomerEmailOf(SENT, 0, 0) && CustomerEmail(SENT, 0)
    ensures SlotOf(SENT, 0) == Terminal && MaySendAgain(SENT, 0, 1, "TRIP_ENDED", 0)
    ensures !RecordKeepsSend(SENT, 0, Failed, Some(INVALID_RECIPIENT))
  {
    ReservationTexts();
    assert SENT.attempts[0].deliveryId == 0;
    assert PossiblyAccepted(SENT, 0) && MaybeSent(SENT, 0) && !Confirmed(SENT, 0);
    assert CUSTOMER != "";
    assert CustomerEmailSlot("TRIP_ENDED") == Terminal by { assert "TRIP_ENDED"[0] != "BOOKING_CREATED"[0]; }
  }

  /** A concrete run of the model, with one late verdict, that sends two closing e-mails for one booking. */
  lemma UndisciplinedRunSendsTwice()
    ensures var steps := FIRST_SEND + SecondSend(SENT, 0, 0, "TRIP_ENDED", Failed, Some(INVALID_RECIPIENT));
            IsRun(EMPTY, steps)
            && var u := Run(EMPTY, steps);
               PossiblyAccepted(u, 0) && PossiblyAccepted(u, 1)
               && AttemptIsFor(u, 0, 0, Terminal) && AttemptIsFor(u, 1, 0, Terminal)
  {
    FirstSendRuns();
    SentIsSound();
    LateVerdictAllowsSecondEmail(SENT, 0, Failed, Some(INVALID_RECIPIENT), 0);
    RunAppend(EMPTY, FIRST_SEND, SecondSend(SENT, 0, 0, "TRIP_ENDED", Failed, Some(INVALID_RECIPIENT)));
  }
}
