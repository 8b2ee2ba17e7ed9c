/**
 * The repository transactions over mutable tables, each proved to do what the ledger
 * functions say. `NotificationStore` stands for NotificationRepository and
 * AdminReceiptEmailRepository over one database.
 */
module EmailStore {
  import opened Basics
  import opened EmailPolicy
  import opened EmailLedger

  ghost function Below(h: set<nat>, d: nat): set<nat> {
    set e | e in h && e < d
  }

  lemma BelowStep(h: set<nat>, d: nat)
    ensures |Below(h, d + 1)| == |Below(h, d)| + (if d in h then 1 else 0)
    ensures Below(h, d + 1) != {} <==> Below(h, d) != {} || d in h
  {
    if d in h {
      assert d !in Below(h, d) && Below(h, d + 1) == Below(h, d) + {d};
    } else {
      assert Below(h, d + 1) == Below(h, d);
    }
  }

  // The counted deliveries of one slot.
  ghost function InSlot(t: Tables, bookingId: nat, excluded: Option<nat>, slot: Slot): (h: set<nat>)
    ensures forall d :: d in h <==> InHistory(t, bookingId, excluded, d) && SlotOf(t, d) == slot
  {
    set d | d in History(t, bookingId, excluded) && SlotOf(t, d) == slot
  }

  lemma SlotUsedAt(t: Tables, bookingId: nat, excluded: Option<nat>, slot: Slot)
    ensures SlotUsed(t, bookingId, excluded, slot) <==> InSlot(t, bookingId, excluded, slot) != {}
  {
    if d :| d in InSlot(t, bookingId, excluded, slot) {
      assert InHistory(t, bookingId, excluded, d) && SlotOf(t, d) == slot;
    }
  }

  class NotificationStore {
    var bookings: seq<Booking>
    var notifications: seq<Notification>
    var deliveries: seq<Delivery>
    var attempts: seq<Attempt>
    var reviews: seq<Review>

    function Snapshot(): Tables
      reads this
    {
      Tables(bookings, notifications, deliveries, attempts, reviews)
    }

    constructor ()
      ensures Snapshot() == Tables([], [], [], [], [])
    {
      bookings, notifications, deliveries, attempts, reviews := [], [], [], [], [];
    }

    /**
     * Scan the other customer e-mails of the booking: how many may have reached the
     * customer, and whether one of them used the slot.
     */
    method ScanHistory(bookingId: nat, excluded: Option<nat>, slot: Slot) returns (used: bool, count: nat)
      ensures used == SlotUsed(Snapshot(), bookingId, excluded, slot)
      ensures count == |History(Snapshot(), bookingId, excluded)|
    {
      ghost var t := Snapshot();
      ghost var counted, inSlot := History(t, bookingId, excluded), InSlot(t, bookingId, excluded, slot);
      used, count := false, 0;
      for d := 0 to |deliveries|
        invariant t == Snapshot()
        invariant count == |Below(counted, d)|
        invariant used <==> Below(inSlot, d) != {}
      {
        BelowStep(counted, d);
        BelowStep(inSlot, d);
        if InHistory(Snapshot(), bookingId, excluded, d) {
          count := count + 1;
          if SlotOf(Snapshot(), d) == slot {
            used := true;
          }
        }
      }
      SlotUsedAt(t, bookingId, excluded, slot);
      assert Below(counted, |deliveries|) == counted && Below(inSlot, |deliveries|) == inSlot;
    }

    /** The attempt a recovery names must be the latest, provably refused, kept and unconfirmed. */
    method ProveRecovery(d: nat, recovery: Recovery) returns (proven: bool, envelope: Option<string>)
      ensures proven == RecoveryProven(Snapshot(), d, recovery)
      ensures proven ==> envelope == attempts[recovery.expectedAttemptId].envelope
    {
      var latest := LatestAttempt(attempts, d);
      if latest.None? || latest.value != recovery.expectedAttemptId
         || !CanRecoverAttempt(attempts[latest.value].evidence)
         || attempts[latest.value].envelope.GetOr("") == "" || Confirmed(Snapshot(), d) {
        return false, None;
      }
      return true, attempts[latest.value].envelope;
    }

    /** The policy of one e-mail per slot and two per booking; later rules overrule earlier ones. */
    method CheckPolicy(bookingId: nat, kind: string, excluded: Option<nat>) returns (error: Option<string>)
      requires bookingId < |bookings|
      ensures error == PolicyError(Snapshot(), bookingId, kind, excluded)
    {
      var used, count := ScanHistory(bookingId, excluded, CustomerEmailSlot(kind));
      error := if count >= 2 then Some("EMAIL_POLICY_BOOKING_LIMIT") else None;
      if used {
        error := Some("EMAIL_POLICY_SLOT_ALREADY_USED");
      }
      if kind == "BOOKING_CANCELLED" && bookings[bookingId].started {
        error := Some("EMAIL_POLICY_CANCELLATION_AFTER_START");
      }
    }

    /** Review the retry, open the attempt and mark the delivery. */
    method ReserveDelivery(d: nat, recovery: Option<Recovery>, envelope: Option<string>) returns (a: nat)
      requires d < |deliveries|
      modifies this`reviews, this`attempts, this`deliveries
      ensures Snapshot() == Reserve(old(Snapshot()), d, recovery, envelope)
      ensures a == |old(attempts)|
    {
      if recovery.Some? {
        reviews := reviews + [Review(d, Some(recovery.value.expectedAttemptId), RetryApproved)];
      }
      a := |attempts|;
      attempts := attempts + [Attempt(d, FRESH, envelope)];
      deliveries := deliveries[d := deliveries[d].(attemptCount := deliveries[d].attemptCount + 1,
                                                   lastError := Some(SEND_RESERVED))];
    }

    /** claimCustomerEmail: decide under the booking lock, then reserve before SMTP runs. */
    method ClaimCustomerEmail(n: nat, d: nat, recovery: Option<Recovery>) returns (r: ClaimResult)
      requires n < |notifications|
      modifies this
      ensures r == ClaimAnswer(old(Snapshot()), n, d, recovery)
      ensures Snapshot() == Claim(old(Snapshot()), n, d, recovery)
    {
      var note := notifications[n];
      if note.bookingId.None? || note.bookingId.value >= |bookings| || bookings[note.bookingId.value].deleted {
        return Refused("EMAIL_POLICY_BOOKING_REQUIRED");
      }
      var bookingId := note.bookingId.value;
      var booking := bookings[bookingId];
      if SupersededByBooking(booking, n, note.kind) {
        return Refused("EMAIL_POLICY_SUPERSEDED_BY_ADMIN_BOOKING");
      }
      if SupersededByReceipt(booking, n) {
        return Refused("EMAIL_POLICY_SUPERSEDED_BY_ADMIN_RECEIPT");
      }
      if d >= |deliveries| || Finished(deliveries[d], recovery.Some?) {
        return AlreadyProcessed;
      }
      var previousEnvelope: Option<string> := None;
      if recovery.Some? {
        var proven;
        proven, previousEnvelope := ProveRecovery(d, recovery.value);
        if !proven {
          return Refused("EMAIL_RECOVERY_NOT_PROVEN");
        }
      }
      var error := CheckPolicy(bookingId, note.kind, if recovery.Some? then Some(d) else None);
      if error.Some? {
        return Refused(error.value);
      }
      var a := ReserveDelivery(d, recovery, previousEnvelope);
      r := Allowed(a, previousEnvelope);
    }

    /** saveEmailEnvelope: keeps the message of an attempt still being sent; false where the call fails. */
    method SaveEmailEnvelope(a: nat, encrypted: string) returns (saved: bool)
      modifies this`attempts
      ensures Snapshot() == SaveEnvelope(old(Snapshot()), a, encrypted)
      ensures saved <==> a < |old(attempts)| && old(attempts)[a].evidence.outcome == Sending
      ensures attempts == if saved then old(attempts)[a := old(attempts)[a].(envelope := Some(encrypted))]
                          else old(attempts)
    {
      saved := a < |attempts| && attempts[a].evidence.outcome == Sending;
      if saved {
        attempts := attempts[a := attempts[a].(envelope := Some(encrypted))];
      }
    }

    /** finishEmailAttempt: compare-and-set on the SENDING outcome. */
    method FinishEmailAttempt(a: nat, evidence: StoredEvidence)
      modifies this`attempts
      ensures Snapshot() == FinishAttempt(old(Snapshot()), a, evidence)
      ensures attempts == if a < |old(attempts)| && old(attempts)[a].evidence.outcome == Sending
                          then old(attempts)[a := old(attempts)[a].(evidence := evidence)]
                          else old(attempts)
    {
      if a < |attempts| && attempts[a].evidence.outcome == Sending {
        attempts := attempts[a := attempts[a].(evidence := evidence)];
      }
    }

    /** updateDeliveryStatus: unconditional. */
    method UpdateDeliveryStatus(d: nat, status: Status, error: Option<string>, increment: bool)
      modifies this`deliveries
      ensures Snapshot() == UpdateStatus(old(Snapshot()), d, status, error, increment)
      ensures d < |old(deliveries)| ==>
                deliveries == old(deliveries)[d := Delivery(
                                old(deliveries)[d].notificationId, old(deliveries)[d].channel, status,
                                old(deliveries)[d].attemptCount + (if increment then 1 else 0), error)]
      ensures d >= |old(deliveries)| ==> deliveries == old(deliveries)
    {
      if d < |deliveries| {
        var row := deliveries[d];
        row := row.(status := status);
        row := row.(attemptCount := row.attemptCount + if increment then 1 else 0);
        row := row.(lastError := error);
        deliveries := deliveries[d := row];
      }
    }

    /** addEmailReview: false where the delivery is not a customer's e-mail. */
    method AddEmailReview(d: nat, action: ReviewAction) returns (recorded: bool)
      modifies this`reviews
      ensures Snapshot() == AddReview(old(Snapshot()), d, action)
      ensures recorded <==> d < |deliveries| && deliveries[d].channel == Email
                            && deliveries[d].notificationId < |notifications|
                            && var note := notifications[deliveries[d].notificationId];
                               note.bookingId.Some? && (note.addressee.audienceRole == Some("CUSTOMER")
                                                        || note.addressee.guestBooking)
      ensures reviews == if recorded then old(reviews) + [Review(d, LatestAttempt(attempts, d), action)]
                         else old(reviews)
    {
      recorded := Reviewable(Snapshot(), d);
      if recorded {
        reviews := reviews + [Review(d, LatestAttempt(attempts, d), action)];
      }
    }

    /** approve: record the approved trip document, then skip what it replaces. */
    method Approve(bookingId: nat, n: nat, d: nat)
      requires bookingId < |bookings|
      modifies this`bookings, this`deliveries
      ensures Snapshot() == ApproveReceipt(old(Snapshot()), bookingId, n, d)
    {
      ghost var t := Snapshot();
      bookings := bookings[bookingId := bookings[bookingId].(adminReceipt := Some(n))];
      for i := 0 to |deliveries|
        invariant bookings == ApproveReceipt(t, bookingId, n, d).bookings && |deliveries| == |t.deliveries|
        invariant forall j :: 0 <= j < i ==> deliveries[j] == ApproveReceipt(t, bookingId, n, d).deliveries[j]
        invariant forall j :: i <= j < |deliveries| ==> deliveries[j] == t.deliveries[j]
      {
        if ReceiptSupersedes(Snapshot(), bookingId, d, i) {
          deliveries := deliveries[i := Skip(deliveries[i], "EMAIL_POLICY_SUPERSEDED_BY_ADMIN_RECEIPT")];
        }
      }
    }

    /** approveBookingEmail: skip what the confirmation replaces, then record it. */
    method ApproveBookingEmail(bookingId: nat, n: nat, d: nat)
      requires bookingId < |bookings|
      modifies this`bookings, this`deliveries
      ensures Snapshot() == ApproveBooking(old(Snapshot()), bookingId, n, d)
    {
      ghost var t := Snapshot();
      for i := 0 to |deliveries|
        invariant bookings == t.bookings && |deliveries| == |t.deliveries|
        invariant forall j :: 0 <= j < i ==> deliveries[j] == ApproveBooking(t, bookingId, n, d).deliveries[j]
        invariant forall j :: i <= j < |deliveries| ==> deliveries[j] == t.deliveries[j]
      {
        if BookingSupersedes(Snapshot(), bookingId, d, i) {
          deliveries := deliveries[i := Skip(deliveries[i], "EMAIL_POLICY_SUPERSEDED_BY_ADMIN_BOOKING")];
        }
      }
      bookings := bookings[bookingId := bookings[bookingId].(adminBooking := Some(n))];
    }
  }
}
