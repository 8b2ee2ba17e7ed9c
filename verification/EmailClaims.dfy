/**
 * What the e-mail transactions answer and write, in the plain terms of their rows: the texts of
 * notification kinds, errors and roles, and the columns of deliveries, attempts and bookings.
 */
module EmailClaims {
  import opened Basics
  import opened EmailPolicy
  import opened EmailLedger
  import opened EmailSafety

  // ---------------------------------------------------------------- the send history

  // v LIKE 'PERMANENT_EMAIL_%', where an underscore stands for any character.
  ghost predicate SpellsPermanentEmail(v: string, c: char, x: char, rest: string) {
    v == "PERMANENT" + [c] + "EMAIL" + [x] + rest
  }

  // v LIKE 'EMAIL_POLICY_%'
  ghost predicate SpellsEmailPolicy(v: string, c: char, x: char, rest: string) {
    v == "EMAIL" + [c] + "POLICY" + [x] + rest
  }

  lemma LikePermanentEmailExactly(v: string)
    ensures LikePermanentEmail(Some(v)) <==> exists c, x, rest :: SpellsPermanentEmail(v, c, x, rest)
  {
    if LikePermanentEmail(Some(v)) {
      assert v == v[..9] + [v[9]] + v[10..15] + [v[15]] + v[16..];
      assert SpellsPermanentEmail(v, v[9], v[15], v[16..]);
    }
  }

  lemma LikeEmailPolicyExactly(v: string)
    ensures LikeEmailPolicy(Some(v)) <==> exists c, x, rest :: SpellsEmailPolicy(v, c, x, rest)
  {
    if LikeEmailPolicy(Some(v)) {
      assert v == v[..5] + [v[5]] + v[6..12] + [v[12]] + v[13..];
      assert SpellsEmailPolicy(v, v[5], v[12], v[13..]);
    }
  }

  /** An e-mail of the booking to its customer. */
  ghost predicate IsCustomerEmail(t: Tables, bookingId: nat, e: nat) {
    e < |t.deliveries| && t.deliveries[e].channel == Email && t.deliveries[e].notificationId < |t.notifications|
    && var note := t.notifications[t.deliveries[e].notificationId];
       note.bookingId == Some(bookingId)
       && (note.addressee.audienceRole == Some("CUSTOMER")
           || (note.addressee.audienceRole == None
               && (note.addressee.guestBooking || note.addressee.userRole == Some("CUSTOMER"))))
  }

  /** A delivery that must be assumed to have reached its customer. */
  ghost predicate MayHaveArrived(t: Tables, e: nat)
    requires e < |t.deliveries|
  {
    var row := t.deliveries[e];
    row.status == Delivered
    || (row.lastError.Some? && exists c, x, rest :: SpellsPermanentEmail(row.lastError.value, c, x, rest))
    || (exists r :: 0 <= r < |t.reviews| && t.reviews[r].deliveryId == e && t.reviews[r].action == AcceptedConfirmed)
    || (row.attemptCount > 0 && row.status != Skipped && row.lastError != Some("PERMANENT_INVALID_RECIPIENT"))
  }

  ghost predicate CountsFor(t: Tables, bookingId: nat, retried: Option<nat>, e: nat) {
    IsCustomerEmail(t, bookingId, e) && MayHaveArrived(t, e) && retried != Some(e)
  }

  lemma CustomerEmailExactly(t: Tables, bookingId: nat, e: nat)
    ensures CustomerEmailOf(t, e, bookingId) <==> IsCustomerEmail(t, bookingId, e)
  {
  }

  /** The send history holds exactly the customer e-mails of the booking that may have arrived. */
  lemma HistoryExactly(t: Tables, bookingId: nat, retried: Option<nat>, e: nat)
    ensures e in History(t, bookingId, retried) <==> CountsFor(t, bookingId, retried, e)
    ensures InHistory(t, bookingId, retried, e) <==> CountsFor(t, bookingId, retried, e)
  {
    CustomerEmailExactly(t, bookingId, e);
    if e < |t.deliveries| && t.deliveries[e].lastError.Some? {
      LikePermanentEmailExactly(t.deliveries[e].lastError.value);
    }
  }

  // ---------------------------------------------------------------- the policy

  function KindOf(t: Tables, e: nat): string
    requires e < |t.deliveries| && t.deliveries[e].notificationId < |t.notifications|
  {
    t.notifications[t.deliveries[e].notificationId].kind
  }

  /** Booking confirmations share one slot, all other customer e-mails the other. */
  predicate SameSlot(kind: string, other: string) {
    (kind == "BOOKING_CREATED") == (other == "BOOKING_CREATED")
  }

  ghost predicate SlotTaken(t: Tables, bookingId: nat, kind: string, retried: Option<nat>) {
    exists e: nat :: CountsFor(t, bookingId, retried, e) && SameSlot(KindOf(t, e), kind)
  }

  ghost predicate TwoSent(t: Tables, bookingId: nat, retried: Option<nat>) {
    exists e: nat, f: nat :: CountsFor(t, bookingId, retried, e) && CountsFor(t, bookingId, retried, f) && e != f
  }

  predicate TooLateToCancel(b: Booking, kind: string) {
    kind == "BOOKING_CANCELLED" && b.started
  }

  lemma SlotTakenExactly(t: Tables, bookingId: nat, kind: string, retried: Option<nat>)
    ensures SlotUsed(t, bookingId, retried, CustomerEmailSlot(kind)) <==> SlotTaken(t, bookingId, kind, retried)
  {
    forall e: nat ensures InHistory(t, bookingId, retried, e) <==> CountsFor(t, bookingId, retried, e) {
      HistoryExactly(t, bookingId, retried, e);
    }
    if e: nat :| CountsFor(t, bookingId, retried, e) && SameSlot(KindOf(t, e), kind) {
      assert InHistory(t, bookingId, retried, e) && SlotOf(t, e) == CustomerEmailSlot(kind);
    }
    if e :| 0 <= e < |t.deliveries| && InHistory(t, bookingId, retried, e) && SlotOf(t, e) == CustomerEmailSlot(kind) {
      assert CountsFor(t, bookingId, retried, e) && SameSlot(KindOf(t, e), kind);
    }
  }

  lemma TwoSentExactly(t: Tables, bookingId: nat, retried: Option<nat>)
    ensures |History(t, bookingId, retried)| >= 2 <==> TwoSent(t, bookingId, retried)
  {
    HistorySize(t, bookingId, retried);
    forall e: nat ensures InHistory(t, bookingId, retried, e) <==> CountsFor(t, bookingId, retried, e) {
      HistoryExactly(t, bookingId, retried, e);
    }
  }

  /** The policy's verdict: a late cancellation first, then a used slot, then the limit of two. */
  lemma PolicyErrorExactly(t: Tables, bookingId: nat, kind: string, retried: Option<nat>)
    requires bookingId < |t.bookings|
    ensures PolicyError(t, bookingId, kind, retried)
         == if TooLateToCancel(t.bookings[bookingId], kind) then Some("EMAIL_POLICY_CANCELLATION_AFTER_START")
            else if SlotTaken(t, bookingId, kind, retried) then Some("EMAIL_POLICY_SLOT_ALREADY_USED")
            else if TwoSent(t, bookingId, retried) then Some("EMAIL_POLICY_BOOKING_LIMIT")
            else None
  {
    SlotTakenExactly(t, bookingId, kind, retried);
    TwoSentExactly(t, bookingId, retried);
  }

  // ---------------------------------------------------------------- what a claim answers

  predicate BookingStands(t: Tables, n: nat)
    requires n < |t.notifications|
  {
    t.notifications[n].bookingId.Some? && t.notifications[n].bookingId.value < |t.bookings|
    && !t.bookings[t.notifications[n].bookingId.value].deleted
  }

  /** No other notification was approved in place of `n`. */
  predicate NotSuperseded(b: Booking, n: nat, kind: string) {
    (kind == "BOOKING_CREATED" ==> b.adminBooking == None || b.adminBooking == Some(n))
    && (b.adminReceipt == None || b.adminReceipt == Some(n))
  }

  /** The delivery is neither delivered nor skipped nor, unless retried by a human, reserved or uncertain. */
  predicate StillOpen(t: Tables, d: nat, retry: bool) {
    d < |t.deliveries|
    && (t.deliveries[d].status == Pending || t.deliveries[d].status == Failed)
    && (retry || t.deliveries[d].lastError == None || !("PERMANENT_EMAIL_" <= t.deliveries[d].lastError.value))
  }

  /** Attempt `a` is the last of the delivery, provably refused, with its message kept and no receipt confirmed. */
  ghost predicate ProvenRefused(t: Tables, d: nat, a: nat) {
    a < |t.attempts| && t.attempts[a].deliveryId == d
    && (forall b :: a < b < |t.attempts| ==> t.attempts[b].deliveryId != d)
    && CanRecoverAttempt(t.attempts[a].evidence)
    && t.attempts[a].envelope != None && t.attempts[a].envelope != Some("")
    && forall r :: 0 <= r < |t.reviews| && t.reviews[r].deliveryId == d ==> t.reviews[r].action != AcceptedConfirmed
  }

  ghost predicate RetryProven(t: Tables, d: nat, recovery: Option<Recovery>) {
    recovery.Some? ==> ProvenRefused(t, d, recovery.value.expectedAttemptId)
  }

  lemma RetryProvenExactly(t: Tables, d: nat, a: nat)
    ensures RecoveryProven(t, d, Recovery(a)) <==> ProvenRefused(t, d, a)
  {
  }

  function Retried(d: nat, recovery: Option<Recovery>): Option<nat> {
    if recovery.Some? then Some(d) else None
  }

  // All the questions a claim asks before the policy's.
  ghost predicate ReachesPolicy(t: Tables, n: nat, d: nat, recovery: Option<Recovery>)
    requires n < |t.notifications|
  {
    BookingStands(t, n)
    && NotSuperseded(t.bookings[t.notifications[n].bookingId.value], n, t.notifications[n].kind)
    && StillOpen(t, d, recovery.Some?) && RetryProven(t, d, recovery)
  }

  /** Every question before the policy's, in order, with the answer of the first one that fails. */
  lemma EarlyAnswersExactly(t: Tables, n: nat, d: nat, recovery: Option<Recovery>)
    requires n < |t.notifications|
    ensures var answer, note := ClaimAnswer(t, n, d, recovery), t.notifications[n];
            (!BookingStands(t, n) ==> answer == Refused("EMAIL_POLICY_BOOKING_REQUIRED"))
            && (BookingStands(t, n) ==>
                  var b := t.bookings[note.bookingId.value];
                  if note.kind == "BOOKING_CREATED" && b.adminBooking != None && b.adminBooking != Some(n)
                  then answer == Refused("EMAIL_POLICY_SUPERSEDED_BY_ADMIN_BOOKING")
                  else if b.adminReceipt != None && b.adminReceipt != Some(n)
                  then answer == Refused("EMAIL_POLICY_SUPERSEDED_BY_ADMIN_RECEIPT")
                  else if !StillOpen(t, d, recovery.Some?) then answer == AlreadyProcessed
                  else !RetryProven(t, d, recovery) ==> answer == Refused("EMAIL_RECOVERY_NOT_PROVEN"))
  {
    if recovery.Some? { RetryProvenExactly(t, d, recovery.value.expectedAttemptId); }
  }

  lemma LateAnswersExactly(t: Tables, n: nat, d: nat, recovery: Option<Recovery>)
    requires n < |t.notifications| && ReachesPolicy(t, n, d, recovery)
    ensures var answer, note := ClaimAnswer(t, n, d, recovery), t.notifications[n];
            var error := PolicyError(t, note.bookingId.value, note.kind, Retried(d, recovery));
            if error.Some? then answer == Refused(error.value)
            else answer == Allowed(|t.attempts|, if recovery.None? then None
                                                 else t.attempts[recovery.value.expectedAttemptId].envelope)
  {
    if recovery.Some? { RetryProvenExactly(t, d, recovery.value.expectedAttemptId); }
  }

  /**
   * A claim goes through exactly when the booking stands, nothing supersedes the notification, the
   * delivery is open, a retry is proven, and no counted e-mail of the booking shares the slot, no two
   * were counted, and a cancellation does not come too late.
   */
  lemma ClaimAllowedExactly(t: Tables, n: nat, d: nat, recovery: Option<Recovery>)
    requires n < |t.notifications|
    ensures ClaimAnswer(t, n, d, recovery).Allowed?
       <==> ReachesPolicy(t, n, d, recovery)
            && var note := t.notifications[n];
               !TooLateToCancel(t.bookings[note.bookingId.value], note.kind)
               && !SlotTaken(t, note.bookingId.value, note.kind, Retried(d, recovery))
               && !TwoSent(t, note.bookingId.value, Retried(d, recovery))
  {
    EarlyAnswersExactly(t, n, d, recovery);
    if ReachesPolicy(t, n, d, recovery) {
      var note := t.notifications[n];
      LateAnswersExactly(t, n, d, recovery);
      PolicyErrorExactly(t, note.bookingId.value, note.kind, Retried(d, recovery));
    }
  }

  /** A claim that reaches the policy is refused for its slot exactly when a counted e-mail of the booking shares it. */
  lemma RefusedForSlotExactly(t: Tables, n: nat, d: nat, recovery: Option<Recovery>)
    requires n < |t.notifications| && ReachesPolicy(t, n, d, recovery)
    requires !TooLateToCancel(t.bookings[t.notifications[n].bookingId.value], t.notifications[n].kind)
    ensures ClaimAnswer(t, n, d, recovery) == Refused("EMAIL_POLICY_SLOT_ALREADY_USED")
       <==> exists e: nat ::
              CountsFor(t, t.notifications[n].bookingId.value, Retried(d, recovery), e)
              && ((KindOf(t, e) == "BOOKING_CREATED") <==> (t.notifications[n].kind == "BOOKING_CREATED"))
  {
    var note := t.notifications[n];
    LateAnswersExactly(t, n, d, recovery);
    PolicyErrorExactly(t, note.bookingId.value, note.kind, Retried(d, recovery));
    assert SlotTaken(t, note.bookingId.value, note.kind, Retried(d, recovery))
      <==> exists e: nat ::
             CountsFor(t, note.bookingId.value, Retried(d, recovery), e) && SameSlot(KindOf(t, e), note.kind);
    assert "EMAIL_POLICY_BOOKING_LIMIT"[13] != "EMAIL_POLICY_SLOT_ALREADY_USED"[13];
  }

  // ---------------------------------------------------------------- what a claim writes

  /**
   * A claim that goes through adds one unsent attempt, marks and counts the delivery, and reviews a
   * retry; no other claim does anything.
   */
  lemma ClaimWrites(t: Tables, n: nat, d: nat, recovery: Option<Recovery>)
    requires n < |t.notifications|
    ensures var u, answer := Claim(t, n, d, recovery), ClaimAnswer(t, n, d, recovery);
            if !answer.Allowed? then u == t
            else
              d < |t.deliveries| && u.bookings == t.bookings && u.notifications == t.notifications
              && u.attempts == t.attempts + [Attempt(d, StoredEvidence(Sending, None, None, None), answer.envelope)]
              && u.deliveries == t.deliveries[d := Delivery(t.deliveries[d].notificationId, t.deliveries[d].channel,
                                                            t.deliveries[d].status, t.deliveries[d].attemptCount + 1,
                                                            Some("PERMANENT_EMAIL_SEND_RESERVED"))]
              && u.reviews == t.reviews + if recovery.None? then []
                                          else [Review(d, Some(recovery.value.expectedAttemptId), RetryApproved)]
  {
    if ClaimAnswer(t, n, d, recovery).Allowed? {
      assert ReachesPolicy(t, n, d, recovery) by { ClaimAllowedExactly(t, n, d, recovery); }
      assert t.reviews + [] == t.reviews;
    }
  }

  const REFUSED := StoredEvidence(NotAccepted, Some("EENVELOPE"), Some("RCPT TO"), Some(550))

  /** A retry does go through: the only attempt of a trip-ended e-mail was refused with 550 on RCPT TO. */
  lemma RetryGoesThrough()
    ensures var note := Notification(Some(0), "TRIP_ENDED", Addressee(Some("CUSTOMER"), true, None, false, false));
            var t := Tables([Booking(false, None, None, false)], [note],
                            [Delivery(0, Email, Failed, 1, Some("PERMANENT_EMAIL_REJECTED"))],
                            [Attempt(0, REFUSED, Some("kept"))], []);
            ClaimAnswer(t, 0, 0, Some(Recovery(0))) == Allowed(1, Some("kept"))
  {
    var note := Notification(Some(0), "TRIP_ENDED", Addressee(Some("CUSTOMER"), true, None, false, false));
    var t := Tables([Booking(false, None, None, false)], [note],
                    [Delivery(0, Email, Failed, 1, Some("PERMANENT_EMAIL_REJECTED"))],
                    [Attempt(0, REFUSED, Some("kept"))], []);
    RefusalIsRecoverable();
    assert "kept" != "" && "TRIP_ENDED"[0] != "BOOKING_CANCELLED"[0];
    assert ProvenRefused(t, 0, 0);
    assert ReachesPolicy(t, 0, 0, Some(Recovery(0)));
    assert forall e: nat :: !CountsFor(t, 0, Some(0), e);
    LateAnswersExactly(t, 0, 0, Some(Recovery(0)));
    PolicyErrorExactly(t, 0, note.kind, Some(0));
  }

  lemma RefusalIsRecoverable()
    ensures CanRecoverAttempt(REFUSED)
  {
    UpperIsStable("RCPT TO");
    EvidenceExactly("EENVELOPE", "RCPT TO", Num(550.0));
    assert 550 as real == 550.0;
  }

  // ---------------------------------------------------------------- what an approval writes

  ghost predicate NeverTried(t: Tables, e: nat) {
    forall a :: 0 <= a < |t.attempts| ==> t.attempts[a].deliveryId != e
  }

  /** Never delivered nor tried, and either not counted yet or failed for a reason before SMTP. */
  ghost predicate ReplacedByDocument(t: Tables, bookingId: nat, approved: nat, e: nat) {
    IsCustomerEmail(t, bookingId, e) && e != approved && NeverTried(t, e)
    && var row := t.deliveries[e];
       row.status != Delivered
       && (row.attemptCount == 0 || row.lastError == Some("PERMANENT_INVALID_RECIPIENT")
           || row.lastError == Some("CONFIG_MISSING")
           || (row.lastError.Some? && exists c, x, rest :: SpellsEmailPolicy(row.lastError.value, c, x, rest)))
  }

  ghost predicate ReplacedByConfirmation(t: Tables, bookingId: nat, approved: nat, e: nat) {
    IsCustomerEmail(t, bookingId, e) && e != approved && NeverTried(t, e)
    && KindOf(t, e) == "BOOKING_CREATED" && t.deliveries[e].status != Delivered
  }

  lemma ReplacedExactly(t: Tables, bookingId: nat, approved: nat, e: nat)
    ensures ReceiptSupersedes(t, bookingId, approved, e) <==> ReplacedByDocument(t, bookingId, approved, e)
    ensures BookingSupersedes(t, bookingId, approved, e) <==> ReplacedByConfirmation(t, bookingId, approved, e)
  {
    CustomerEmailExactly(t, bookingId, e);
    assert HasAttempt(t, e) <==> !NeverTried(t, e);
    if e < |t.deliveries| && t.deliveries[e].lastError.Some? {
      LikeEmailPolicyExactly(t.deliveries[e].lastError.value);
    }
  }

  /** An approved trip document is recorded, and skips exactly the deliveries it replaces. */
  lemma DocumentApprovalWrites(t: Tables, bookingId: nat, n: nat, d: nat, e: nat)
    requires bookingId < |t.bookings| && e < |t.deliveries|
    ensures var u, row, b := ApproveReceipt(t, bookingId, n, d), t.deliveries[e], t.bookings[bookingId];
            u.bookings == t.bookings[bookingId := Booking(b.deleted, b.adminBooking, Some(n), b.started)]
            && |u.deliveries| == |t.deliveries|
            && u.deliveries[e] == if ReplacedByDocument(t, bookingId, d, e)
                                  then Delivery(row.notificationId, row.channel, Skipped, row.attemptCount,
                                                Some("EMAIL_POLICY_SUPERSEDED_BY_ADMIN_RECEIPT"))
                                  else row
  {
    ReplacedExactly(t, bookingId, d, e);
  }

  /** An approved confirmation is recorded, and skips exactly the confirmations it replaces. */
  lemma ConfirmationApprovalWrites(t: Tables, bookingId: nat, n: nat, d: nat, e: nat)
    requires bookingId < |t.bookings| && e < |t.deliveries|
    ensures var u, row, b := ApproveBooking(t, bookingId, n, d), t.deliveries[e], t.bookings[bookingId];
            u.bookings == t.bookings[bookingId := Booking(b.deleted, Some(n), b.adminReceipt, b.started)]
            && |u.deliveries| == |t.deliveries|
            && u.deliveries[e] == if ReplacedByConfirmation(t, bookingId, d, e)
                                  then Delivery(row.notificationId, row.channel, Skipped, row.attemptCount,
                                                Some("EMAIL_POLICY_SUPERSEDED_BY_ADMIN_BOOKING"))
                                  else row
  {
    ReplacedExactly(t, bookingId, d, e);
  }

  // ---------------------------------------------------------------- the sweep

  /** The recovery sweep picks exactly the open rows with fewer than three attempts and no permanent error. */
  lemma SweepTakesExactly(row: Delivery)
    ensures SweepTakes(row)
       <==> (row.status == Pending || row.status == Failed) && row.attemptCount <= 2
            && !exists rest :: row.lastError == Some("PERMANENT_" + rest)
  {
    if StartsWith(row.lastError, "PERMANENT_") {
      var v := row.lastError.value;
      assert v == "PERMANENT_" + v[|"PERMANENT_"|..];
    }
  }

  // ---------------------------------------------------------------- runs, by the kinds of e-mail

  /**
   * Over every disciplined run a booking has at most one possibly accepted confirmation, and at most
   * one possibly accepted e-mail of any other kind.
   */
  lemma OneConfirmationOneClosing(steps: seq<Step>, a: nat, b: nat, bookingId: nat)
    requires IsDisciplinedRun(EMPTY, steps)
    requires var t := Run(EMPTY, steps);
             a < |t.attempts| && b < |t.attempts|
             && t.attempts[a].evidence.outcome != NotAccepted && t.attempts[b].evidence.outcome != NotAccepted
             && IsCustomerEmail(t, bookingId, t.attempts[a].deliveryId)
             && IsCustomerEmail(t, bookingId, t.attempts[b].deliveryId)
             && (KindOf(t, t.attempts[a].deliveryId) == "BOOKING_CREATED"
                 <==> KindOf(t, t.attempts[b].deliveryId) == "BOOKING_CREATED")
    ensures a == b
  {
    var t := Run(EMPTY, steps);
    var slot := SlotOf(t, t.attempts[a].deliveryId);
    assert PossiblyAccepted(t, a) && PossiblyAccepted(t, b);
    assert AttemptIsFor(t, a, bookingId, slot) && AttemptIsFor(t, b, bookingId, slot);
    AtMostOneEmailPerSlot(steps, a, b, bookingId, slot);
  }
}
