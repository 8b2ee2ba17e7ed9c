/**
 * The tables behind customer e-mail and what each transaction does to them, as functions
 * from tables to tables. Row ids are positions: every table here only grows.
 */
module EmailLedger {
  import opened Basics
  import opened EmailPolicy

  datatype Channel = InApp | Email | Fcm
  datatype Status = Pending | Delivered | Skipped | Failed
  datatype ReviewAction = RetryApproved | AcceptedConfirmed | HandledExternally | KeepBlocked

  /** The two metadata records, each naming the notification an administrator approved. */
  datatype Booking = Booking(deleted: bool, adminBooking: Option<nat>, adminReceipt: Option<nat>, started: bool)

  datatype Notification = Notification(bookingId: Option<nat>, kind: string, addressee: Addressee)

  datatype Delivery = Delivery(
    notificationId: nat, channel: Channel, status: Status, attemptCount: nat, lastError: Option<string>)

  datatype Attempt = Attempt(deliveryId: nat, evidence: StoredEvidence, envelope: Option<string>)

  datatype Review = Review(deliveryId: nat, attemptId: Option<nat>, action: ReviewAction)

  datatype Tables = Tables(
    bookings: seq<Booking>,
    notifications: seq<Notification>,
    deliveries: seq<Delivery>,
    attempts: seq<Attempt>,
    reviews: seq<Review>)

  /** A human's request to retry one particular attempt. */
  datatype Recovery = Recovery(expectedAttemptId: nat)

  datatype ClaimResult = Refused(error: string) | AlreadyProcessed | Allowed(attemptId: nat, envelope: Option<string>)

  // ---------------------------------------------------------------- last_error texts

  const PERMANENT_EMAIL := "PERMANENT_EMAIL_"
  const SEND_RESERVED := "PERMANENT_EMAIL_SEND_RESERVED"
  const INVALID_RECIPIENT := "PERMANENT_INVALID_RECIPIENT"

  predicate StartsWith(e: Option<string>, prefix: string) {
    e.Some? && prefix <= e.value
  }

  // LIKE 'PERMANENT_EMAIL_%': both underscores are SQL wildcards.
  predicate LikePermanentEmail(e: Option<string>) {
    e.Some? && |e.value| >= 16 && e.value[..9] == "PERMANENT" && e.value[10..15] == "EMAIL"
  }

  lemma PrefixIsLike(e: Option<string>)
    requires StartsWith(e, PERMANENT_EMAIL)
    ensures LikePermanentEmail(e)
  {
    assert e.value[..9] == PERMANENT_EMAIL[..9] == "PERMANENT";
    assert e.value[10..15] == PERMANENT_EMAIL[10..15] == "EMAIL";
  }

  lemma ReservationTexts()
    ensures StartsWith(Some(SEND_RESERVED), PERMANENT_EMAIL)
    ensures LikePermanentEmail(Some(SEND_RESERVED))
    ensures INVALID_RECIPIENT != SEND_RESERVED
    ensures !LikePermanentEmail(Some(INVALID_RECIPIENT))
  {
    PrefixIsLike(Some(SEND_RESERVED));
    assert INVALID_RECIPIENT[10] == 'I' && "EMAIL"[0] == 'E';
  }

  // ---------------------------------------------------------------- the send history

  predicate CustomerEmailOf(t: Tables, d: nat, bookingId: nat) {
    d < |t.deliveries|
    && t.deliveries[d].channel == Email
    && t.deliveries[d].notificationId < |t.notifications|
    && var n := t.notifications[t.deliveries[d].notificationId];
       n.bookingId == Some(bookingId) && HistoryAudience(n.addressee) == Some(CUSTOMER)
  }

  predicate Confirmed(t: Tables, d: nat) {
    exists r :: 0 <= r < |t.reviews| && t.reviews[r].deliveryId == d && t.reviews[r].action == AcceptedConfirmed
  }

  // Whether a row must be assumed to have reached the customer.
  predicate RowCounts(row: Delivery) {
    row.status == Delivered
    || LikePermanentEmail(row.lastError)
    || (row.attemptCount > 0 && row.status != Skipped && row.lastError != Some(INVALID_RECIPIENT))
  }

  predicate Counted(t: Tables, d: nat)
    requires d < |t.deliveries|
  {
    RowCounts(t.deliveries[d]) || Confirmed(t, d)
  }

  predicate InHistory(t: Tables, bookingId: nat, excluded: Option<nat>, d: nat) {
    CustomerEmailOf(t, d, bookingId) && excluded != Some(d) && Counted(t, d)
  }

  function History(t: Tables, bookingId: nat, excluded: Option<nat>): (h: set<nat>)
    ensures forall d :: d in h <==> InHistory(t, bookingId, excluded, d)
  {
    set d: nat | 0 <= d < |t.deliveries| && InHistory(t, bookingId, excluded, d)
  }

  function SlotOf(t: Tables, d: nat): Slot
    requires d < |t.deliveries| && t.deliveries[d].notificationId < |t.notifications|
  {
    CustomerEmailSlot(t.notifications[t.deliveries[d].notificationId].kind)
  }

  predicate SlotUsed(t: Tables, bookingId: nat, excluded: Option<nat>, slot: Slot) {
    exists d :: 0 <= d < |t.deliveries| && InHistory(t, bookingId, excluded, d) && SlotOf(t, d) == slot
  }

  // ---------------------------------------------------------------- claiming

  predicate HasAttempt(t: Tables, d: nat) {
    exists a :: 0 <= a < |t.attempts| && t.attempts[a].deliveryId == d
  }

  predicate IsLatestAttempt(t: Tables, d: nat, a: nat) {
    a < |t.attempts| && t.attempts[a].deliveryId == d
    && forall b :: a < b < |t.attempts| ==> t.attempts[b].deliveryId != d
  }

  // The retry a human asked for: the latest attempt, proven not accepted, kept verbatim, not confirmed received.
  predicate RecoveryProven(t: Tables, d: nat, r: Recovery) {
    IsLatestAttempt(t, d, r.expectedAttemptId)
    && CanRecoverAttempt(t.attempts[r.expectedAttemptId].evidence)
    && t.attempts[r.expectedAttemptId].envelope.GetOr("") != ""
    && !Confirmed(t, d)
  }

  predicate SupersededByBooking(b: Booking, n: nat, kind: string) {
    kind == "BOOKING_CREATED" && b.adminBooking.Some? && b.adminBooking.value != n
  }

  predicate SupersededByReceipt(b: Booking, n: nat) {
    b.adminReceipt.Some? && b.adminReceipt.value != n
  }

  function PolicyError(t: Tables, bookingId: nat, kind: string, excluded: Option<nat>): Option<string>
    requires bookingId < |t.bookings|
  {
    if kind == "BOOKING_CANCELLED" && t.bookings[bookingId].started then Some("EMAIL_POLICY_CANCELLATION_AFTER_START")
    else if SlotUsed(t, bookingId, excluded, CustomerEmailSlot(kind)) then Some("EMAIL_POLICY_SLOT_ALREADY_USED")
    else if |History(t, bookingId, excluded)| >= 2 then Some("EMAIL_POLICY_BOOKING_LIMIT")
    else None
  }

  predicate Finished(row: Delivery, isRecovery: bool) {
    row.status == Delivered || row.status == Skipped
    || (!isRecovery && StartsWith(row.lastError, PERMANENT_EMAIL))
  }

  /** What claiming delivery `d` of notification `n` answers. */
  function ClaimAnswer(t: Tables, n: nat, d: nat, recovery: Option<Recovery>): ClaimResult
    requires n < |t.notifications|
  {
    var note := t.notifications[n];
    if note.bookingId.None? || note.bookingId.value >= |t.bookings| || t.bookings[note.bookingId.value].deleted
    then Refused("EMAIL_POLICY_BOOKING_REQUIRED")
    else
      var bookingId := note.bookingId.value;
      var b := t.bookings[bookingId];
      if SupersededByBooking(b, n, note.kind) then Refused("EMAIL_POLICY_SUPERSEDED_BY_ADMIN_BOOKING")
      else if SupersededByReceipt(b, n) then Refused("EMAIL_POLICY_SUPERSEDED_BY_ADMIN_RECEIPT")
      else if d >= |t.deliveries| || Finished(t.deliveries[d], recovery.Some?) then AlreadyProcessed
      else if recovery.Some? && !RecoveryProven(t, d, recovery.value) then Refused("EMAIL_RECOVERY_NOT_PROVEN")
      else
        var error := PolicyError(t, bookingId, note.kind, if recovery.Some? then Some(d) else None);
        if error.Some? then Refused(error.value)
        else Allowed(|t.attempts|,
                     if recovery.Some? then t.attempts[recovery.value.expectedAttemptId].envelope else None)
  }

  const FRESH := StoredEvidence(Sending, None, None, None)

  /** Reserve `d` before SMTP runs: a retry is reviewed, an attempt opened, the delivery marked. */
  function Reserve(t: Tables, d: nat, recovery: Option<Recovery>, envelope: Option<string>): Tables
    requires d < |t.deliveries|
  {
    t.(reviews := if recovery.Some? then t.reviews + [Review(d, Some(recovery.value.expectedAttemptId), RetryApproved)]
                  else t.reviews,
       attempts := t.attempts + [Attempt(d, FRESH, envelope)],
       deliveries := t.deliveries[d := t.deliveries[d].(attemptCount := t.deliveries[d].attemptCount + 1,
                                                        lastError := Some(SEND_RESERVED))])
  }

  function Claim(t: Tables, n: nat, d: nat, recovery: Option<Recovery>): Tables
    requires n < |t.notifications|
  {
    match ClaimAnswer(t, n, d, recovery)
    case Allowed(_, envelope) => Reserve(t, d, recovery, envelope)
    case _ => t
  }

  // ---------------------------------------------------------------- after the claim

  function SaveEnvelope(t: Tables, a: nat, encrypted: string): Tables {
    if a < |t.attempts| && t.attempts[a].evidence.outcome == Sending
    then t.(attempts := t.attempts[a := t.attempts[a].(envelope := Some(encrypted))])
    else t
  }

  function FinishAttempt(t: Tables, a: nat, evidence: StoredEvidence): Tables {
    if a < |t.attempts| && t.attempts[a].evidence.outcome == Sending
    then t.(attempts := t.attempts[a := t.attempts[a].(evidence := evidence)])
    else t
  }

  function UpdatedRow(row: Delivery, status: Status, error: Option<string>, increment: bool): Delivery {
    row.(status := status, lastError := error, attemptCount := row.attemptCount + if increment then 1 else 0)
  }

  function UpdateStatus(t: Tables, d: nat, status: Status, error: Option<string>, increment: bool): Tables {
    if d < |t.deliveries|
    then t.(deliveries := t.deliveries[d := UpdatedRow(t.deliveries[d], status, error, increment)])
    else t
  }

  predicate Reviewable(t: Tables, d: nat) {
    d < |t.deliveries| && t.deliveries[d].channel == Email
    && t.deliveries[d].notificationId < |t.notifications|
    && var n := t.notifications[t.deliveries[d].notificationId];
       n.bookingId.Some? && (n.addressee.audienceRole == Some(CUSTOMER) || n.addressee.guestBooking)
  }

  // SELECT MAX(id) of the delivery's attempts.
  function LatestAttempt(attempts: seq<Attempt>, d: nat): (a: Option<nat>)
    ensures a.Some? ==> a.value < |attempts| && attempts[a.value].deliveryId == d
    ensures a.Some? ==> forall b :: a.value < b < |attempts| ==> attempts[b].deliveryId != d
    ensures a.None? ==> forall b :: 0 <= b < |attempts| ==> attempts[b].deliveryId != d
  {
    if attempts == [] then None
    else if attempts[|attempts| - 1].deliveryId == d then Some(|attempts| - 1)
    else LatestAttempt(attempts[..|attempts| - 1], d)
  }

  function AddReview(t: Tables, d: nat, action: ReviewAction): Tables {
    if Reviewable(t, d) then t.(reviews := t.reviews + [Review(d, LatestAttempt(t.attempts, d), action)]) else t
  }

  // ---------------------------------------------------------------- administrator approvals

  // Rows an approved trip document replaces: never attempted over SMTP, not delivered, not the approved one.
  predicate ReceiptSupersedes(t: Tables, bookingId: nat, approved: nat, d: nat) {
    CustomerEmailOf(t, d, bookingId) && d != approved
    && var row := t.deliveries[d];
       row.status != Delivered && !HasAttempt(t, d)
       && (row.attemptCount == 0
           || row.lastError == Some(INVALID_RECIPIENT) || row.lastError == Some("CONFIG_MISSING")
           || LikeEmailPolicy(row.lastError))
  }

  // LIKE 'EMAIL_POLICY_%'
  predicate LikeEmailPolicy(e: Option<string>) {
    e.Some? && |e.value| >= 13 && e.value[..5] == "EMAIL" && e.value[6..12] == "POLICY"
  }

  predicate BookingSupersedes(t: Tables, bookingId: nat, approved: nat, d: nat) {
    CustomerEmailOf(t, d, bookingId) && d != approved
    && t.notifications[t.deliveries[d].notificationId].kind == "BOOKING_CREATED"
    && t.deliveries[d].status != Delivered && !HasAttempt(t, d)
  }

  function Skip(row: Delivery, error: string): Delivery {
    row.(status := Skipped, lastError := Some(error))
  }

  /** An administrator's approval record for a trip document. */
  function ApproveReceipt(t: Tables, bookingId: nat, n: nat, d: nat): Tables
    requires bookingId < |t.bookings|
  {
    t.(bookings := t.bookings[bookingId := t.bookings[bookingId].(adminReceipt := Some(n))],
       deliveries := seq(|t.deliveries|, i requires 0 <= i < |t.deliveries| =>
         if ReceiptSupersedes(t, bookingId, d, i) then Skip(t.deliveries[i], "EMAIL_POLICY_SUPERSEDED_BY_ADMIN_RECEIPT")
         else t.deliveries[i]))
  }

  /** An administrator's approval record for a booking confirmation. */
  function ApproveBooking(t: Tables, bookingId: nat, n: nat, d: nat): Tables
    requires bookingId < |t.bookings|
  {
    t.(bookings := t.bookings[bookingId := t.bookings[bookingId].(adminBooking := Some(n))],
       deliveries := seq(|t.deliveries|, i requires 0 <= i < |t.deliveries| =>
         if BookingSupersedes(t, bookingId, d, i) then Skip(t.deliveries[i], "EMAIL_POLICY_SUPERSEDED_BY_ADMIN_BOOKING")
         else t.deliveries[i]))
  }

  // ---------------------------------------------------------------- the recovery sweep

  // last_error LIKE 'PERMANENT\_%' with the underscore escaped.
  predicate SweepTakes(row: Delivery) {
    (row.status == Pending || row.status == Failed) && row.attemptCount < 3
    && !StartsWith(row.lastError, "PERMANENT_")
  }
}
