/**
 * What every interleaving of workers, crashes, administrators and other writers keeps true
 * of customer e-mail. A run is any sequence of committed transactions; a crash is a step
 * that never comes.
 */
module EmailSafety {
  import opened Basics
  import opened EmailPolicy
  import opened EmailLedger

  datatype Step =
    | AddBooking(booking: Booking)
    | ChangeBooking(bookingId: nat, booking: Booking)   // deletion, status logs, any writer of metadata
    | AddNotification(notification: Notification)
    | AddDelivery(delivery: Delivery)
    | ChangeUserDeletion(n: nat, deleted: bool)         // the user notification `n` names
    | ClaimEmail(n: nat, d: nat, recovery: Option<Recovery>)
    | KeepEnvelope(a: nat, encrypted: string)
    | Finish(a: nat, evidence: StoredEvidence)
    | Record(d: nat, status: Status, error: Option<string>, increment: bool)
    | ReviewEmail(d: nat, action: ReviewAction)
    | ApproveTripDocument(bookingId: nat, n: nat, d: nat)
    | ApproveConfirmation(bookingId: nat, n: nat, d: nat)

  /**
   * What the callers guarantee: foreign keys, and that only customer e-mail is claimed. The worker
   * decided that on a notification it read earlier, so its user may have been deleted meanwhile.
   */
  predicate Enabled(t: Tables, s: Step) {
    match s
    case AddNotification(n) =>
      n.addressee.audienceRole != Some("") && (n.bookingId.Some? ==> n.bookingId.value < |t.bookings|)
    case AddDelivery(d) => d.notificationId < |t.notifications|
    case ClaimEmail(n, d, _) =>
      n < |t.notifications| && EmailAudience(WhileUserLived(t.notifications[n].addressee)) == Some(CUSTOMER)
      && (d < |t.deliveries| ==> t.deliveries[d].notificationId == n && t.deliveries[d].channel == Email)
    case ChangeBooking(b, _) => b < |t.bookings|
    case ChangeUserDeletion(n, _) => n < |t.notifications|
    case Finish(_, e) => e.outcome != Sending
    case ApproveTripDocument(b, _, _) => b < |t.bookings|
    case ApproveConfirmation(b, _, _) => b < |t.bookings|
    case _ => true
  }

  function WhileUserLived(a: Addressee): Addressee {
    a.(userDeleted := false)
  }

  function Apply(t: Tables, s: Step): Tables
    requires Enabled(t, s)
  {
    match s
    case AddBooking(b) => t.(bookings := t.bookings + [b])
    case ChangeBooking(id, b) => t.(bookings := t.bookings[id := b])
    case AddNotification(n) => t.(notifications := t.notifications + [n])
    case AddDelivery(d) => t.(deliveries := t.deliveries + [d])
    case ChangeUserDeletion(n, deleted) =>
      var note := t.notifications[n];
      t.(notifications := t.notifications[n := note.(addressee := note.addressee.(userDeleted := deleted))])
    case ClaimEmail(n, d, recovery) => Claim(t, n, d, recovery)
    case KeepEnvelope(a, e) => SaveEnvelope(t, a, e)
    case Finish(a, e) => FinishAttempt(t, a, e)
    case Record(d, status, error, increment) => UpdateStatus(t, d, status, error, increment)
    case ReviewEmail(d, action) => AddReview(t, d, action)
    case ApproveTripDocument(b, n, d) => ApproveReceipt(t, b, n, d)
    case ApproveConfirmation(b, n, d) => ApproveBooking(t, b, n, d)
  }

  predicate PossiblyAccepted(t: Tables, a: nat) {
    a < |t.attempts| && t.attempts[a].evidence.outcome != NotAccepted
  }

  // The customer may hold this e-mail: not every attempt of the delivery was provably refused.
  predicate MaybeSent(t: Tables, d: nat) {
    exists a :: 0 <= a < |t.attempts| && PossiblyAccepted(t, a) && t.attempts[a].deliveryId == d
  }

  // A status and error under which the send history keeps counting an attempted delivery.
  predicate StaysCounted(status: Status, error: Option<string>) {
    status == Delivered || LikePermanentEmail(error)
    || (status != Skipped && error != Some(INVALID_RECIPIENT))
  }

  /**
   * The one discipline the unconditional status update needs: a delivery the customer may hold is
   * not recorded as never sent, unless a human review already confirmed its receipt.
   */
  predicate RecordKeepsSend(t: Tables, d: nat, status: Status, error: Option<string>) {
    MaybeSent(t, d) && !Confirmed(t, d) ==> StaysCounted(status, error)
  }

  predicate Disciplined(t: Tables, s: Step) {
    s.Record? ==> RecordKeepsSend(t, s.d, s.status, s.error)
  }

  ghost predicate IsRun(t: Tables, steps: seq<Step>)
    decreases |steps|
  {
    steps == [] || (Enabled(t, steps[0]) && IsRun(Apply(t, steps[0]), steps[1..]))
  }

  ghost predicate IsDisciplinedRun(t: Tables, steps: seq<Step>): (ok: bool)
    ensures ok ==> IsRun(t, steps)
    decreases |steps|
  {
    steps == []
    || (Enabled(t, steps[0]) && Disciplined(t, steps[0]) && IsDisciplinedRun(Apply(t, steps[0]), steps[1..]))
  }

  ghost function Run(t: Tables, steps: seq<Step>): Tables
    requires IsRun(t, steps)
    decreases |steps|
  {
    if steps == [] then t else Run(Apply(t, steps[0]), steps[1..])
  }

  const EMPTY := Tables([], [], [], [], [])

  // ---------------------------------------------------------------- the invariant

  ghost predicate AttemptIsFor(t: Tables, a: nat, bookingId: nat, slot: Slot) {
    a < |t.attempts| && CustomerEmailOf(t, t.attempts[a].deliveryId, bookingId)
    && SlotOf(t, t.attempts[a].deliveryId) == slot
  }

  predicate CustomerEmail(t: Tables, d: nat) {
    d < |t.deliveries| && t.deliveries[d].notificationId < |t.notifications|
    && t.notifications[t.deliveries[d].notificationId].bookingId.Some?
    && CustomerEmailOf(t, d, t.notifications[t.deliveries[d].notificationId].bookingId.value)
  }

  // Every attempt belongs to a customer e-mail of some booking.
  ghost predicate AttemptsPlaced(t: Tables) {
    forall a :: 0 <= a < |t.attempts| ==> CustomerEmail(t, t.attempts[a].deliveryId)
  }

  // The send history sees every delivery the customer may hold.
  ghost predicate AttemptCounted(t: Tables, a: nat)
    requires a < |t.attempts|
  {
    var d := t.attempts[a].deliveryId;
    d < |t.deliveries| && t.deliveries[d].attemptCount > 0 && (PossiblyAccepted(t, a) ==> Counted(t, d))
  }

  ghost predicate AttemptsCounted(t: Tables) {
    forall a :: 0 <= a < |t.attempts| ==> AttemptCounted(t, a)
  }

  // Only the latest attempt of a delivery can have been accepted.
  ghost predicate EarlierRefused(t: Tables) {
    forall a, b :: 0 <= a < b < |t.attempts| && t.attempts[a].deliveryId == t.attempts[b].deliveryId ==>
      t.attempts[a].evidence.outcome == NotAccepted
  }

  ghost predicate OnePerSlot(t: Tables) {
    forall a: nat, b: nat, bookingId, slot |
      PossiblyAccepted(t, a) && PossiblyAccepted(t, b)
      && AttemptIsFor(t, a, bookingId, slot) && AttemptIsFor(t, b, bookingId, slot) :: a == b
  }

  ghost predicate RowsRefer(t: Tables) {
    (forall d :: 0 <= d < |t.deliveries| ==> t.deliveries[d].notificationId < |t.notifications|)
    && (forall n :: 0 <= n < |t.notifications| ==>
          t.notifications[n].addressee.audienceRole != Some("")
          && (t.notifications[n].bookingId.Some? ==> t.notifications[n].bookingId.value < |t.bookings|))
    && (forall r :: 0 <= r < |t.reviews| ==> t.reviews[r].deliveryId < |t.deliveries|)
  }

  ghost predicate Inv(t: Tables) {
    RowsRefer(t) && AttemptsPlaced(t) && AttemptsCounted(t) && EarlierRefused(t) && OnePerSlot(t)
  }

  // ---------------------------------------------------------------- one step at a time

  // The columns of a notification the send history reads.
  predicate SameToHistory(m: Notification, n: Notification) {
    m.bookingId == n.bookingId && m.kind == n.kind && HistoryAudience(m.addressee) == HistoryAudience(n.addressee)
  }

  // Rows a step may rewrite keep where they belong, and attempts only lose doubt.
  ghost predicate Quiet(t: Tables, u: Tables) {
    |u.deliveries| >= |t.deliveries| && |u.notifications| >= |t.notifications| && |u.attempts| == |t.attempts|
    && (forall n :: 0 <= n < |t.notifications| ==> SameToHistory(u.notifications[n], t.notifications[n]))
    && (forall d :: 0 <= d < |t.deliveries| ==>
          u.deliveries[d].notificationId == t.deliveries[d].notificationId
          && u.deliveries[d].channel == t.deliveries[d].channel)
    && (forall a :: 0 <= a < |t.attempts| ==>
          u.attempts[a].deliveryId == t.attempts[a].deliveryId
          && (t.attempts[a].evidence.outcome == NotAccepted ==> u.attempts[a].evidence.outcome == NotAccepted))
  }

  lemma PlacesStay(t: Tables, u: Tables, d: nat, bookingId: nat)
    requires RowsRefer(t) && Quiet(t, u) && d < |t.deliveries|
    ensures CustomerEmailOf(u, d, bookingId) <==> CustomerEmailOf(t, d, bookingId)
    ensures SlotOf(u, d) == SlotOf(t, d)
  {
  }

  lemma QuietStep(t: Tables, u: Tables)
    requires Inv(t) && Quiet(t, u) && RowsRefer(u) && AttemptsCounted(u)
    ensures Inv(u)
  {
    assert AttemptsPlaced(u) by {
      forall a | 0 <= a < |u.attempts| ensures CustomerEmail(u, u.attempts[a].deliveryId) {
        assert CustomerEmail(t, t.attempts[a].deliveryId);
      }
    }
    forall a: nat, b: nat, bookingId, slot |
      PossiblyAccepted(u, a) && PossiblyAccepted(u, b)
      && AttemptIsFor(u, a, bookingId, slot) && AttemptIsFor(u, b, bookingId, slot)
      ensures a == b
    {
      PlacesStay(t, u, t.attempts[a].deliveryId, bookingId);
      PlacesStay(t, u, t.attempts[b].deliveryId, bookingId);
      assert AttemptIsFor(t, a, bookingId, slot) && AttemptIsFor(t, b, bookingId, slot);
    }
  }

  lemma RecordStep(t: Tables, s: Step)
    requires Inv(t) && s.Record? && Disciplined(t, s)
    ensures Inv(Apply(t, s))
  {
    var u := Apply(t, s);
    assert u.reviews == t.reviews && u.attempts == t.attempts;
    forall a | 0 <= a < |u.attempts| ensures AttemptCounted(u, a) {
      assert AttemptCounted(t, a);
      assert PossiblyAccepted(t, a) ==> MaybeSent(t, t.attempts[a].deliveryId);
    }
    QuietStep(t, u);
  }

  lemma ApprovalStep(t: Tables, s: Step)
    requires Inv(t) && Enabled(t, s) && (s.ApproveTripDocument? || s.ApproveConfirmation?)
    ensures Inv(Apply(t, s))
  {
    var u := Apply(t, s);
    assert u.reviews == t.reviews && u.attempts == t.attempts;
    forall a | 0 <= a < |u.attempts| ensures AttemptCounted(u, a) {
      assert AttemptCounted(t, a);
      assert HasAttempt(t, t.attempts[a].deliveryId);
      assert u.deliveries[t.attempts[a].deliveryId] == t.deliveries[t.attempts[a].deliveryId];
    }
    QuietStep(t, u);
  }

  lemma ConfirmationsStay(t: Tables, u: Tables, d: nat)
    requires t.reviews <= u.reviews && Confirmed(t, d)
    ensures Confirmed(u, d)
  {
    var r :| 0 <= r < |t.reviews| && t.reviews[r].deliveryId == d && t.reviews[r].action == AcceptedConfirmed;
    assert u.reviews[r] == t.reviews[r];
  }

  lemma OtherStepIsQuiet(t: Tables, s: Step)
    requires RowsRefer(t) && Enabled(t, s)
    requires !s.ClaimEmail? && !s.Record? && !s.ApproveTripDocument? && !s.ApproveConfirmation?
    ensures var u := Apply(t, s);
            Quiet(t, u) && RowsRefer(u) && t.reviews <= u.reviews && t.deliveries <= u.deliveries
  {
  }

  lemma OtherStep(t: Tables, s: Step)
    requires Inv(t) && Enabled(t, s)
    requires !s.ClaimEmail? && !s.Record? && !s.ApproveTripDocument? && !s.ApproveConfirmation?
    ensures Inv(Apply(t, s))
  {
    var u := Apply(t, s);
    OtherStepIsQuiet(t, s);
    forall a | 0 <= a < |u.attempts| ensures AttemptCounted(u, a) {
      assert AttemptCounted(t, a);
      var d := t.attempts[a].deliveryId;
      if Confirmed(t, d) { ConfirmationsStay(t, u, d); }
    }
    QuietStep(t, u);
  }

  // A claim that goes through finds the slot free of every e-mail the customer may hold but the one it retries.
  lemma ClaimFindsSlotFree(t: Tables, n: nat, d: nat, recovery: Option<Recovery>, a: nat)
    requires Inv(t) && Enabled(t, ClaimEmail(n, d, recovery)) && ClaimAnswer(t, n, d, recovery).Allowed?
    requires AttemptIsFor(t, a, t.notifications[n].bookingId.value, SlotOf(t, d)) && PossiblyAccepted(t, a)
    ensures recovery.Some? && t.attempts[a].deliveryId == d
  {
    var bookingId := t.notifications[n].bookingId.value;
    var excluded := if recovery.Some? then Some(d) else None;
    assert PolicyError(t, bookingId, t.notifications[n].kind, excluded).None?;
    assert !SlotUsed(t, bookingId, excluded, SlotOf(t, d));
    assert AttemptCounted(t, a);
    assert !InHistory(t, bookingId, excluded, t.attempts[a].deliveryId);
  }

  lemma LatestIsRefused(t: Tables, d: nat, r: Recovery, a: nat)
    requires EarlierRefused(t) && RecoveryProven(t, d, r) && a < |t.attempts| && t.attempts[a].deliveryId == d
    ensures t.attempts[a].evidence.outcome == NotAccepted
  {
    var last := r.expectedAttemptId;
    assert t.attempts[last].evidence.outcome == NotAccepted;
    if a != last { assert a < last; }
  }

  lemma ClaimedDeliveryIsCustomers(t: Tables, n: nat, d: nat, recovery: Option<Recovery>)
    requires Inv(t) && Enabled(t, ClaimEmail(n, d, recovery)) && ClaimAnswer(t, n, d, recovery).Allowed?
    ensures CustomerEmailOf(t, d, t.notifications[n].bookingId.value)
  {
    SentIsCounted(WhileUserLived(t.notifications[n].addressee));
  }

  // No attempt of the claimed slot can still have been accepted.
  lemma ClaimedSlotWasRefused(t: Tables, n: nat, d: nat, recovery: Option<Recovery>, a: nat)
    requires Inv(t) && Enabled(t, ClaimEmail(n, d, recovery)) && ClaimAnswer(t, n, d, recovery).Allowed?
    requires d < |t.deliveries| && a < |t.attempts|
    requires AttemptIsFor(t, a, t.notifications[n].bookingId.value, SlotOf(t, d)) || t.attempts[a].deliveryId == d
    ensures t.attempts[a].evidence.outcome == NotAccepted
  {
    ClaimedDeliveryIsCustomers(t, n, d, recovery);
    if PossiblyAccepted(t, a) {
      ClaimFindsSlotFree(t, n, d, recovery, a);
      LatestIsRefused(t, d, recovery.value, a);
    }
  }

  // No rule of the policy forbids one more e-mail of this kind.
  ghost predicate PolicyPermits(t: Tables, bookingId: nat, kind: string, retried: Option<nat>)
    requires bookingId < |t.bookings|
  {
    !(kind == "BOOKING_CANCELLED" && t.bookings[bookingId].started)
    && (forall e: nat :: InHistory(t, bookingId, retried, e) ==> SlotOf(t, e) != CustomerEmailSlot(kind))
    && (forall e: nat, f: nat :: InHistory(t, bookingId, retried, e) && InHistory(t, bookingId, retried, f) ==> e == f)
  }

  lemma HistorySize(t: Tables, bookingId: nat, retried: Option<nat>)
    ensures |History(t, bookingId, retried)| >= 2
       <==> exists e: nat, f: nat ::
              InHistory(t, bookingId, retried, e) && InHistory(t, bookingId, retried, f) && e != f
  {
    var h := History(t, bookingId, retried);
    if |h| >= 2 {
      var e :| e in h;
      assert |h - {e}| >= 1;
      var f :| f in h - {e};
      assert InHistory(t, bookingId, retried, e) && InHistory(t, bookingId, retried, f) && e != f;
    }
    if e: nat, f: nat :| InHistory(t, bookingId, retried, e) && InHistory(t, bookingId, retried, f) && e != f {
      assert {e, f} <= h;
      SubsetSize({e, f}, h);
    }
  }

  /** The policy lets an e-mail through exactly when its slot is unused and at most one other was sent. */
  lemma PolicyPermitsExactly(t: Tables, bookingId: nat, kind: string, retried: Option<nat>)
    requires bookingId < |t.bookings|
    ensures PolicyError(t, bookingId, kind, retried).None? <==> PolicyPermits(t, bookingId, kind, retried)
  {
    HistorySize(t, bookingId, retried);
  }

  lemma ClaimStep(t: Tables, n: nat, d: nat, recovery: Option<Recovery>)
    requires Inv(t) && Enabled(t, ClaimEmail(n, d, recovery))
    ensures Inv(Claim(t, n, d, recovery))
  {
    var answer := ClaimAnswer(t, n, d, recovery);
    if answer.Allowed? {
      var u := Reserve(t, d, recovery, answer.envelope);
      ClaimedDeliveryIsCustomers(t, n, d, recovery);
      ReservationPlaces(t, u, n, d, recovery);
      ReservationCounts(t, u, d, recovery);
      ReservationRefused(t, u, n, d, recovery);
      ReservationOnePerSlot(t, u, n, d, recovery);
    }
  }

  lemma ReservationRefused(t: Tables, u: Tables, n: nat, d: nat, recovery: Option<Recovery>)
    requires Inv(t) && Enabled(t, ClaimEmail(n, d, recovery)) && ClaimAnswer(t, n, d, recovery).Allowed?
    requires u == Reserve(t, d, recovery, ClaimAnswer(t, n, d, recovery).envelope)
    ensures EarlierRefused(u)
  {
    forall a, b | 0 <= a < b < |u.attempts| && u.attempts[a].deliveryId == u.attempts[b].deliveryId
      ensures u.attempts[a].evidence.outcome == NotAccepted
    {
      if b == |t.attempts| { ClaimedSlotWasRefused(t, n, d, recovery, a); }
    }
  }

  // The reservation is the only attempt of its slot that can be accepted.
  lemma ReservationIsAlone(t: Tables, u: Tables, n: nat, d: nat, recovery: Option<Recovery>, a: nat, bookingId: nat,
                           slot: Slot)
    requires Inv(t) && Enabled(t, ClaimEmail(n, d, recovery)) && ClaimAnswer(t, n, d, recovery).Allowed?
    requires u == Reserve(t, d, recovery, ClaimAnswer(t, n, d, recovery).envelope) && a < |t.attempts|
    requires AttemptIsFor(u, a, bookingId, slot) && AttemptIsFor(u, |t.attempts|, bookingId, slot)
    ensures !PossiblyAccepted(u, a)
  {
    ClaimedDeliveryIsCustomers(t, n, d, recovery);
    ReservationPlaces(t, u, n, d, recovery);
    assert CustomerEmail(t, t.attempts[a].deliveryId);
    assert AttemptIsFor(t, a, bookingId, slot);
    ClaimedSlotWasRefused(t, n, d, recovery, a);
  }

  lemma ReservationOnePerSlot(t: Tables, u: Tables, n: nat, d: nat, recovery: Option<Recovery>)
    requires Inv(t) && Enabled(t, ClaimEmail(n, d, recovery)) && ClaimAnswer(t, n, d, recovery).Allowed?
    requires u == Reserve(t, d, recovery, ClaimAnswer(t, n, d, recovery).envelope)
    ensures OnePerSlot(u)
  {
    ClaimedDeliveryIsCustomers(t, n, d, recovery);
    ReservationPlaces(t, u, n, d, recovery);
    forall a: nat, b: nat, bookingId, slot |
      PossiblyAccepted(u, a) && PossiblyAccepted(u, b)
      && AttemptIsFor(u, a, bookingId, slot) && AttemptIsFor(u, b, bookingId, slot)
      ensures a == b
    {
      if a < |t.attempts| && b < |t.attempts| {
        assert CustomerEmail(t, t.attempts[a].deliveryId) && CustomerEmail(t, t.attempts[b].deliveryId);
        assert AttemptIsFor(t, a, bookingId, slot) && AttemptIsFor(t, b, bookingId, slot);
      } else if a < |t.attempts| {
        ReservationIsAlone(t, u, n, d, recovery, a, bookingId, slot);
      } else if b < |t.attempts| {
        ReservationIsAlone(t, u, n, d, recovery, b, bookingId, slot);
      }
    }
  }

  lemma ReservationPlaces(t: Tables, u: Tables, n: nat, d: nat, recovery: Option<Recovery>)
    requires Inv(t) && d < |t.deliveries| && n < |t.notifications|
    requires CustomerEmailOf(t, d, t.notifications[n].bookingId.GetOr(0))
    requires exists envelope :: u == Reserve(t, d, recovery, envelope)
    ensures RowsRefer(u) && AttemptsPlaced(u)
    ensures forall e, b :: 0 <= e < |t.deliveries| ==> (CustomerEmailOf(u, e, b) <==> CustomerEmailOf(t, e, b))
    ensures forall e :: 0 <= e < |t.deliveries| ==> SlotOf(u, e) == SlotOf(t, e)
  {
    forall a | 0 <= a < |u.attempts| ensures CustomerEmail(u, u.attempts[a].deliveryId) {
      if a < |t.attempts| { assert CustomerEmail(t, t.attempts[a].deliveryId); }
    }
  }

  lemma ReservationCounts(t: Tables, u: Tables, d: nat, recovery: Option<Recovery>)
    requires Inv(t) && d < |t.deliveries|
    requires exists envelope :: u == Reserve(t, d, recovery, envelope)
    ensures AttemptsCounted(u)
  {
    ReservationTexts();
    assert Counted(u, d);
    forall a | 0 <= a < |u.attempts| ensures AttemptCounted(u, a) {
      var e := u.attempts[a].deliveryId;
      if e != d {
        assert AttemptCounted(t, a);
        if Confirmed(t, e) { ConfirmationsStay(t, u, e); }
      }
    }
  }

  lemma StepKeepsInv(t: Tables, s: Step)
    requires Inv(t) && Enabled(t, s) && Disciplined(t, s)
    ensures Inv(Apply(t, s))
  {
    match s
    case ClaimEmail(n, d, recovery) => ClaimStep(t, n, d, recovery);
    case Record(_, _, _, _) => RecordStep(t, s);
    case ApproveTripDocument(_, _, _) => ApprovalStep(t, s);
    case ApproveConfirmation(_, _, _) => ApprovalStep(t, s);
    case _ => OtherStep(t, s);
  }

  lemma {:induction false} RunKeepsInv(t: Tables, steps: seq<Step>)
    requires Inv(t) && IsDisciplinedRun(t, steps)
    ensures Inv(Run(t, steps))
    decreases |steps|
  {
    if steps != [] {
      StepKeepsInv(t, steps[0]);
      RunKeepsInv(Apply(t, steps[0]), steps[1..]);
    }
  }

  // ---------------------------------------------------------------- main results

  /**
   * At most one possibly accepted e-mail per booking and slot: in every interleaving, however
   * many workers claim, crash, retry and approve, two attempts of one booking and slot that were
   * not provably refused are the same attempt.
   */
  lemma AtMostOneEmailPerSlot(steps: seq<Step>, a: nat, b: nat, bookingId: nat, slot: Slot)
    requires IsDisciplinedRun(EMPTY, steps)
    requires var t := Run(EMPTY, steps);
             PossiblyAccepted(t, a) && PossiblyAccepted(t, b)
             && AttemptIsFor(t, a, bookingId, slot) && AttemptIsFor(t, b, bookingId, slot)
    ensures a == b
  {
    RunKeepsInv(EMPTY, steps);
  }

  /** Every attempt of a delivery but its latest was provably refused. */
  lemma EarlierAttemptsWereRefused(steps: seq<Step>, a: nat, b: nat)
    requires IsDisciplinedRun(EMPTY, steps)
    requires a < b < |Run(EMPTY, steps).attempts|
    ensures var t := Run(EMPTY, steps);
            t.attempts[a].deliveryId == t.attempts[b].deliveryId ==> t.attempts[a].evidence.outcome == NotAccepted
  {
    RunKeepsInv(EMPTY, steps);
  }

  ghost function PossibleEmails(t: Tables, bookingId: nat): set<nat> {
    set a: nat | 0 <= a < |t.attempts| && PossiblyAccepted(t, a)
                 && CustomerEmailOf(t, t.attempts[a].deliveryId, bookingId)
  }

  /** Hence a booking never gets more than its receipt and one closing e-mail. */
  lemma AtMostTwoEmailsPerBooking(steps: seq<Step>, bookingId: nat)
    requires IsDisciplinedRun(EMPTY, steps)
    ensures |PossibleEmails(Run(EMPTY, steps), bookingId)| <= 2
  {
    RunKeepsInv(EMPTY, steps);
    TwoSlots(Run(EMPTY, steps), bookingId);
  }

  lemma TwoSlots(t: Tables, bookingId: nat)
    requires OnePerSlot(t)
    ensures |PossibleEmails(t, bookingId)| <= 2
  {
    var receipts, closings := SlotEmails(t, bookingId, Receipt), SlotEmails(t, bookingId, Terminal);
    AtMostOneElement(receipts, t, bookingId, Receipt);
    AtMostOneElement(closings, t, bookingId, Terminal);
    forall a | a in PossibleEmails(t, bookingId) ensures a in receipts + closings {
      assert AttemptIsFor(t, a, bookingId, SlotOf(t, t.attempts[a].deliveryId));
    }
    assert PossibleEmails(t, bookingId) <= receipts + closings;
    SubsetSize(PossibleEmails(t, bookingId), receipts + closings);
  }

  lemma SubsetSize(s: set<nat>, u: set<nat>)
    requires s <= u
    ensures |s| <= |u|
  {
    assert u == s + (u - s);
  }

  ghost function SlotEmails(t: Tables, bookingId: nat, slot: Slot): set<nat> {
    set a: nat | 0 <= a < |t.attempts| && PossiblyAccepted(t, a) && AttemptIsFor(t, a, bookingId, slot)
  }

  lemma AtMostOneElement(s: set<nat>, t: Tables, bookingId: nat, slot: Slot)
    requires OnePerSlot(t) && s == SlotEmails(t, bookingId, slot)
    ensures |s| <= 1
  {
    if a :| a in s { assert s == {a}; }
  }
}
