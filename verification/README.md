# Verified model of the TRIDER booking backend

A Dafny model of the parts of the repository where order, concurrency or arithmetic decide the
outcome, with proofs that hold for every input, every interleaving or every run:

- **Customer e-mail** (`EmailPolicy`, `EmailLedger`, `EmailStore`, `EmailClaims`, `EmailSafety`,
  `EmailRecovery`).
  The claim protocol that reserves an e-mail before SMTP runs. `EmailLedger` says what each
  transaction does to the tables, as functions; `EmailStore` is the repository as a class whose
  methods are proved against those functions; `EmailClaims` says what claims, approvals and the sweep
  answer and write in the plain terms of the rows; `EmailSafety` proves what all interleavings of
  workers, crashes, administrators and other writers keep; `EmailRecovery` treats crashes,
  supersession, retries, and what happens when the one discipline is broken. What counts as
  evidence of non-acceptance follows section 4.2.1 of RFC 5321.
- **Backup retention** (`Retention`) and **ISO week keys** (`IsoWeek`, against sections 2.2.10 and
  4.1.4 of ISO 8601:2004).
- **Urgent negotiation** (`UrgentNegotiation`): the compare-and-set state machine raced by drivers,
  customers and timeout scans, with the transactions of the service that drives it.
- **Rate limiter** (`RateLimit`), with Retry-After of section 10.2.3 of RFC 9110.
- **Admin booking filter** (`SqlText`, `BookingFilters`): a compiler from a filter record to a WHERE
  text with positional parameters, checked against a reader and evaluator of that text in SQL's
  three-valued logic.
- **Outbox** (`Outbox`), **driver password-reset codes** (`PasswordReset`), **driver schedules**
  (`DriverSchedule`) and **HTML escaping** (`HtmlEscape`, section 13.1.4 of the WHATWG HTML
  Standard).

A transaction that holds its rows under `FOR UPDATE`, and a single guarded `UPDATE`, is one atomic
step. A crash is a step that never comes. Clocks, random values, hashes, locks held by other
transactions and checks outside the model are parameters of a step, so the theorems hold for all of
them. Row ids are positions in tables that only grow.

## What the proofs found

- `updateDeliveryStatus` has no guard. A worker that read a notification before another worker sent
  it can still record "invalid recipient" or "skipped" (`backend/src/services/notification.service.js:744-755`)
  and the send history forgets the e-mail. The guarantee of one e-mail per slot asks one thing of
  status updates: a delivery with an attempt that was not provably refused, and that no review
  confirmed, is not recorded as never sent. `EmailRecovery.RecordKeepsInvExactly` shows that the
  invariant needs exactly this, and `EmailRecovery.LateVerdictAllowsSecondEmail` shows, for every
  update that breaks it, exactly when the next notification is sent as well.
  `EmailRecovery.UndisciplinedRunSendsTwice` is a concrete run. That retries are approved by a human
  needs more: refused deliveries must not be forgotten either
  (`EmailRecovery.ForgottenDeliveryIsClaimableExactly`).
- The gate that sends and the query that counts disagree on two kinds of notification: an empty
  audience role in front of a customer is sent to but not counted, and a deleted customer without an
  audience role is counted but no longer sent to (`EmailPolicy.GateAndHistoryAgree`). Only the first
  endangers the guarantee; the theorems ask that no notification is stored with an empty audience role.
- A fractional SMTP response code proves non-acceptance when it arrives, but not when it is reread
  (`EmailPolicy.StoredEvidenceRereads`).
- Retry-After is truthful exactly when there is no penalty or the penalty, taken as at least one
  second, lasts as long as the window (`RateLimit.RetryAfterTruthfulExactly`).
- `markFailed` turns a row `FAILED` one attempt early, and such a row can still be claimed
  (`Outbox.FailedMayStillBeClaimed`). `claimById` hands a `PROCESSING` row to a second worker and lets
  a `COMPLETED` row come back (`Outbox.ClaimByIdHandsOutTwice`); `Outbox.ClaimByIdKeepsSoundExactly`
  says exactly when it is harmless. A worker whose completion was applied but not acknowledged marks
  the row failed (`backend/src/services/outboxProcessor.service.js:17-31`) and has the event done again
  (`Outbox.LostAnswerReopens`); `Outbox.MarkKeepsSoundExactly` and `Outbox.CompletedReopensExactly` say
  exactly which guarantees a mark keeps.
- The open-call listing and the schedule check differ only inside a second that `TIMESTAMPDIFF`
  drops, which stored pickup times never reach (`DriverSchedule.ListingAgreesExactly`,
  `DriverSchedule.StoredPickupsAgree`). An edit of a pickup time is not checked; it keeps a schedule
  spaced exactly when the check would have passed (`DriverSchedule.StepKeepsSpacedExactly`).
- A broadcast can go on without any chance of a confirmation: once a customer rejected a proposal of
  one minute no later proposal can be below the floor, and with less than a minute until pickup no
  proposal fits. It is then locked and broadcast until its attempts are used up. Eligibility apart,
  these are the only two reasons (`UrgentNegotiation.ConfirmableExactly`,
  `UrgentNegotiation.HopelessIsReachable`).
- A reset code that is accepted while the user is not an active driver is spent without effect
  (`PasswordReset.AcceptedButWithoutEffectExactly`).
- The inquiry filter compiles to `(0)` and selects nothing (`BookingFilters.CompilerPreservesMeaning`
  with `FlagsMatch`).

## Model

| member | source | states |
|---|---|---|
| `EmailPolicy.GateAndHistoryAgree` | backend/src/policies/notificationEmail.policy.js:9-14 | the audience rule that sends and the one that counts earlier sends agree on customers, with exactly two exceptions: an empty audience role, and a deleted customer without one |
| `EmailPolicy.SentIsCounted` | backend/src/repositories/notification.repository.js:225-232 | whoever is sent to is counted, unless the audience role is empty |
| `EmailPolicy.AudiencesExactly` | backend/src/policies/notificationEmail.policy.js:9-14 | who is sent to and who is counted as a customer, in the columns of the notification and its user |
| `EmailPolicy.EvidenceExactly` | backend/src/policies/emailAttempt.policy.js:2-15 | non-acceptance is proven by a reply of 400 to 599 to one of eight commands or by a connection refused or without host, and by nothing else; what is kept of code, command and reply |
| `EmailPolicy.EvidenceIsStoredInFull` | backend/src/repositories/notification.repository.js:264-269 | storing the evidence of a failure drops and cuts nothing |
| `EmailPolicy.RecoverableExactly` | backend/src/policies/emailAttempt.policy.js:16-20 | what a stored attempt must say to be retried |
| `EmailPolicy.StoredEvidenceRereads` | backend/src/policies/emailAttempt.policy.js:2-20 | for every failure, the stored evidence rereads as recoverable exactly when it proved non-acceptance and its response code is an integer or the connection itself failed |
| `EmailLedger.PrefixIsLike` | backend/src/repositories/notification.repository.js:208-232 | every text the claim treats as reserved is matched by the LIKE pattern of the history, wildcards included |
| `EmailLedger.LatestAttempt` | backend/src/repositories/notification.repository.js:331-333 | the attempt of a delivery with the greatest id, none exactly when there is no attempt |
| `EmailStore.NotificationStore.ScanHistory` | backend/src/repositories/notification.repository.js:223-236 | counts exactly the other customer e-mails that may have reached the customer and whether one used the slot |
| `EmailStore.NotificationStore.ProveRecovery` | backend/src/repositories/notification.repository.js:214-222 | a retry is proven only for the latest attempt, provably refused, with a kept envelope and no confirmed receipt |
| `EmailStore.NotificationStore.CheckPolicy` | backend/src/repositories/notification.repository.js:233-246 | the precedence of the three policy errors |
| `EmailStore.NotificationStore.ReserveDelivery` | backend/src/repositories/notification.repository.js:247-257 | the reservation: review of a retry, new attempt, delivery marked and counted |
| `EmailStore.NotificationStore.ClaimCustomerEmail` | backend/src/repositories/notification.repository.js:188-262 | answer and new tables of a claim, on every branch |
| `EmailStore.NotificationStore.FinishEmailAttempt` | backend/src/repositories/notification.repository.js:264-269 | compare-and-set on the SENDING outcome |
| `EmailStore.NotificationStore.SaveEmailEnvelope` | backend/src/repositories/notification.repository.js:271-274 | keeps the message only while the attempt is being sent, and reports otherwise |
| `EmailStore.NotificationStore.UpdateDeliveryStatus` | backend/src/repositories/notification.repository.js:118-131 | the unconditional status update |
| `EmailStore.NotificationStore.AddEmailReview` | backend/src/repositories/notification.repository.js:322-338 | records a review against the latest attempt, only for customer e-mail of a booking |
| `EmailStore.NotificationStore.Approve` | backend/src/repositories/adminReceiptEmail.repository.js:47-58 | records the approved document and skips exactly the customer e-mails that never reached SMTP and qualify |
| `EmailStore.NotificationStore.ApproveBookingEmail` | backend/src/repositories/adminReceiptEmail.repository.js:35-46 | skips unattempted confirmations of the booking, then records the approved one |
| `EmailClaims.LikePermanentEmailExactly` | backend/src/repositories/notification.repository.js:229 | the LIKE pattern, underscores as wildcards, as an existence of its parts |
| `EmailClaims.HistoryExactly` | backend/src/repositories/notification.repository.js:225-232 | the send history is exactly the other customer e-mails of the booking that may have arrived, in the columns of their rows |
| `EmailClaims.PolicyErrorExactly` | backend/src/repositories/notification.repository.js:233-242 | late cancellation before used slot before limit of two, with slots told by the kind texts |
| `EmailClaims.EarlyAnswersExactly` | backend/src/repositories/notification.repository.js:188-222 | the questions before the policy, in order, with the answer of the first that fails |
| `EmailClaims.ClaimAllowedExactly` | backend/src/repositories/notification.repository.js:188-262 | a claim goes through if and only if booking, approvals, delivery, retry and the counted e-mails of the booking all permit it |
| `EmailClaims.RefusedForSlotExactly` | backend/src/repositories/notification.repository.js:233-236 | a claim that reaches the policy is refused for its slot if and only if a counted e-mail of the booking is on the same side of BOOKING_CREATED |
| `EmailClaims.ClaimWrites` | backend/src/repositories/notification.repository.js:247-257 | what a claim that goes through adds and changes, and that any other changes nothing |
| `EmailClaims.RetryGoesThrough` | backend/src/repositories/notification.repository.js:214-222 | a concrete retry that is allowed and keeps the message |
| `EmailClaims.DocumentApprovalWrites` | backend/src/repositories/adminReceiptEmail.repository.js:47-58 | the record, and for every delivery whether it is skipped |
| `EmailClaims.ConfirmationApprovalWrites` | backend/src/repositories/adminReceiptEmail.repository.js:35-46 | the record, and for every delivery whether it is skipped |
| `EmailClaims.SweepTakesExactly` | backend/src/repositories/notification.repository.js:491-508 | the rows the recovery sweep picks |
| `EmailSafety.PolicyPermitsExactly` | backend/src/repositories/notification.repository.js:223-246 | the policy lets an e-mail through if and only if no counted e-mail used its slot, at most one other was counted, and a cancellation does not follow a started trip |
| `EmailSafety.StepKeepsInv` | backend/src/repositories/notification.repository.js:188-274 | every transaction of any writer keeps the ledger's invariant |
| `EmailSafety.RunKeepsInv` | backend/src/repositories/notification.repository.js:188-274 | the invariant holds after every run |
| `EmailSafety.ClaimedSlotWasRefused` | backend/src/repositories/notification.repository.js:214-246 | a claim that goes through finds every earlier attempt of its slot, and of its delivery, provably refused |
| `EmailSafety.AtMostOneEmailPerSlot` | backend/src/repositories/notification.repository.js:188-269 | over every interleaving, two possibly accepted attempts of one booking and slot are the same attempt |
| `EmailSafety.AtMostTwoEmailsPerBooking` | backend/src/policies/notificationEmail.policy.js:27-29 | at most two possibly accepted e-mails per booking |
| `EmailClaims.OneConfirmationOneClosing` | backend/src/policies/notificationEmail.policy.js:27-29 | over every interleaving, at most one possibly accepted BOOKING_CREATED e-mail and at most one of all other kinds per booking |
| `EmailSafety.EarlierAttemptsWereRefused` | backend/src/repositories/notification.repository.js:214-222 | every attempt of a delivery but its latest was refused |
| `EmailRecovery.OutcomesAreFinal` | backend/src/repositories/notification.repository.js:264-269 | an attempt with an outcome never changes again |
| `EmailRecovery.ClaimReserves` | backend/src/repositories/notification.repository.js:247-257 | a claim that goes through leaves a reservation in flight |
| `EmailRecovery.CrashedSendIsNotRepeated` | backend/src/repositories/notification.repository.js:208-212 | a sender that dies after reserving blocks its delivery against workers, the sweep and human retries, for every later run without its report in which nobody else records a status of that delivery either |
| `EmailRecovery.UnreportedSendBlocksItsSlot` | backend/src/repositories/notification.repository.js:214-246 | whatever status others record under the discipline, a sender that never reports blocks every later claim of its delivery and of its booking's slot |
| `EmailRecovery.InFlightRefuses` | backend/src/repositories/notification.repository.js:491-508 | a reserved delivery is refused by every claim and left out by the recovery sweep |
| `EmailRecovery.ApprovedDocumentIsTheOnlyOne` | backend/src/repositories/adminReceiptEmail.repository.js:35-58 | while the approval record of notification n stands, every new attempt it governs belongs to n: any customer e-mail of the booking for a trip document, its confirmations for a confirmation |
| `EmailRecovery.PlainClaimIsFirst` | backend/src/repositories/notification.repository.js:208-212 | a claim without a human's retry never reopens a delivery that reached SMTP, while none is forgotten |
| `EmailRecovery.EveryRetryWasApproved` | backend/src/repositories/notification.repository.js:247-250 | while no attempted delivery is forgotten, a delivery has at most one attempt more than approved retries |
| `EmailRecovery.RecordKeepsInvExactly` | backend/src/repositories/notification.repository.js:118-131 | a status update keeps the invariant if and only if it does not record as never sent a delivery that may have been accepted and is not confirmed |
| `EmailRecovery.LateVerdictAllowsSecondEmail` | backend/src/services/notification.service.js:744-755 | after any late verdict that breaks the condition, the next notification of that kind is sent too if and only if the booking stands, no approval supersedes it, and the rest of the send history permits it |
| `EmailRecovery.ForgottenDeliveryIsClaimableExactly` | backend/src/repositories/notification.repository.js:207-246 | an attempted delivery that a status update made the history forget is left alone by the sweep, and a claim of it without approval is allowed if and only if it is not skipped, its booking stands, no approval supersedes it, and the rest of the history permits it |
| `EmailRecovery.UndisciplinedRunSendsTwice` | backend/src/services/notification.service.js:744-755 | a concrete run from empty tables that sends two closing e-mails for one booking |
| `Retention.KeepTier` | backend/scripts/stagingDbBackupCycle.js:218-227 | one pass adds exactly the names the greedy selection picks |
| `Retention.ClassifyRetention` | backend/scripts/stagingDbBackupCycle.js:208-268 | the kept names and the delete candidates in listing order; a file is kept if and only if it is the newest or the first of its month, week or day among the first limits.monthly months, limits.weekly weeks or limits.daily days |
| `Retention.NotKept` | backend/scripts/stagingDbBackupCycle.js:255-257 | the delete candidates are the listed names outside the kept ones, in order |
| `Retention.KeptExactly` | backend/scripts/stagingDbBackupCycle.js:208-253 | kept are the newest backup and the newest of each of the first months, weeks and days up to the limits, and nothing else |
| `Retention.KeptInPlainTerms` | backend/scripts/stagingDbBackupCycle.js:208-253 | the same for the kept entries, each tier by its own key and its own limit |
| `Retention.KeepAndDeletePartition` | backend/scripts/stagingDbBackupCycle.js:255-261 | every listed file is kept or a delete candidate, never both |
| `Retention.KeptSize` | backend/scripts/stagingDbBackupCycle.js:208-253 | with limits of at least one, at most daily + weekly + monthly - 2 are kept |
| `Retention.SurvivorsKeepTheSame` | backend/scripts/stagingDbBackupCycle.js:208-268 | a listing that still holds what the full listing keeps is classified the same |
| `Retention.NextKeptIsKept` | backend/scripts/stagingDbBackupCycle.js:208-253 | what the next classification keeps, besides the new backup, is kept already |
| `Retention.PruningEveryCycleLosesNothing` | backend/scripts/stagingDbBackupCycle.js:208-304 | for any run of newer backups and any pattern of prunes, the directory is classified as the unpruned archive would be, and after a prune it is what one prune of the archive leaves |
| `Retention.PruningByName` | backend/scripts/stagingDbBackupCycle.js:255-261 | deleting the candidates by name leaves exactly the kept entries, in order |
| `Retention.ListingNamesDistinct` | backend/scripts/stagingDbBackupCycle.js:124-206 | every listing of a run has unique file names, as classification by name needs |
| `Retention.DeletedIsNeverWanted` | backend/scripts/stagingDbBackupCycle.js:208-304 | a backup some cycle deleted is kept by no later classification of the full archive |
| `Retention.PrunedIsClean` | backend/scripts/stagingDbBackupCycle.js:208-268 | reclassifying what a prune left deletes nothing |
| `Retention.FilterStaysNewestFirst` | backend/scripts/stagingDbBackupCycle.js:204 | pruning leaves a newest-first listing |
| `Retention.ListingIsUnique` | backend/scripts/stagingDbBackupCycle.js:204 | the contents of the directory determine its sorted listing |
| `IsoWeek.IsoWeekKeyFromDateParts` | backend/scripts/stagingDbBackupCycle.js:84-92 | the key of any eight digits of a name, possible date or not, computed step by step |
| `IsoWeek.DayNumbersFollowTheCalendar` | backend/scripts/stagingDbBackupCycle.js:85 | day numbers count calendar days from 1970-01-01 |
| `IsoWeek.MonthLengths` | backend/scripts/stagingDbBackupCycle.js:85 | the lengths of the months and the leap rule |
| `IsoWeek.YearIsUnique` | backend/scripts/stagingDbBackupCycle.js:88 | the year of a day is the only one whose days include it |
| `IsoWeek.WeekIsIso` | backend/scripts/stagingDbBackupCycle.js:84-92 | the week runs Monday to Sunday, belongs to its Thursday's year, and is counted from that year's first Thursday; its number is in 1..53 |
| `IsoWeek.SameKeyIffSameWeek` | backend/scripts/stagingDbBackupCycle.js:84-92 | two dates as the digits of names give them have the same key text if and only if they lie in the same week |
| `IsoWeek.KeyTextInjective` | backend/scripts/stagingDbBackupCycle.js:91 | a key text determines its year and week |
| `IsoWeek.KeyTextShape` | backend/scripts/stagingDbBackupCycle.js:91 | four digits of the year, -W, two digits of the week |
| `IsoWeek.SundayEndsWeek53` | backend/scripts/stagingDbBackupCycle.js:84-92 | Sunday 3 January 2021 has the key 2020-W53 |
| `IsoWeek.MondayStartsWeek1` | backend/scripts/stagingDbBackupCycle.js:84-92 | Monday 4 January 2021 has the key 2021-W01 |
| `UrgentNegotiation.NegotiationStore.InsertNegotiation` | backend/src/repositories/urgentNegotiation.repository.js:339-352 | a new negotiation broadcasts, with no attempts |
| `UrgentNegotiation.NegotiationStore.LockNegotiationIfBroadcasting` | backend/src/repositories/urgentNegotiation.repository.js:98-115 | compare-and-set from BROADCASTING without a lock |
| `UrgentNegotiation.NegotiationStore.MarkNegotiationAwaitingCustomer` | backend/src/repositories/urgentNegotiation.repository.js:201-216 | compare-and-set from LOCKED |
| `UrgentNegotiation.NegotiationStore.ConfirmNegotiation` | backend/src/repositories/urgentNegotiation.repository.js:282-299 | compare-and-set from AWAITING_CUSTOMER |
| `UrgentNegotiation.NegotiationStore.RebroadcastAfterAttemptFailure` | backend/src/repositories/urgentNegotiation.repository.js:435-465 | ends a failed round, counts it and broadcasts again with cleared lock and decision fields |
| `UrgentNegotiation.NegotiationStore.CancelAfterAttemptFailure` | backend/src/repositories/urgentNegotiation.repository.js:467-499 | ends the last round and cancels |
| `UrgentNegotiation.NegotiationStore.LockNegotiation` | backend/src/services/urgentNegotiation.service.js:284-447 | lock and numbered attempt in one transaction, or nothing |
| `UrgentNegotiation.NegotiationStore.SubmitDriverEta` | backend/src/services/urgentNegotiation.service.js:449-626 | a proposal counts only from the lock's owner, in time, within the pickup window and faster than the floor |
| `UrgentNegotiation.NegotiationStore.SubmitCustomerDecision` | backend/src/services/urgentNegotiation.service.js:628-765 | acceptance confirms, rejection ends the round with the proposal as the new floor |
| `UrgentNegotiation.NegotiationStore.CompleteFailedRound` | backend/src/services/urgentNegotiation.service.js:928-1051 | cancels exactly when the attempts are used up |
| `UrgentNegotiation.NegotiationStore.ProcessDriverEtaTimeout` | backend/src/services/urgentNegotiation.service.js:1148-1211 | ends a lock whose time is over |
| `UrgentNegotiation.NegotiationStore.ProcessCustomerDecisionTimeout` | backend/src/services/urgentNegotiation.service.js:1213-1287 | ends a decision whose time is over |
| `UrgentNegotiation.LockWrites` | backend/src/services/urgentNegotiation.service.js:284-447 | a lock gives three minutes and opens the next attempt in the driver's name |
| `UrgentNegotiation.ProposalWrites` | backend/src/repositories/urgentNegotiation.repository.js:218-238 | a proposal goes through only for the lock's owner, is stored as given on the latest attempt and nowhere else, and gives the customer two minutes |
| `UrgentNegotiation.AcceptanceWrites` | backend/src/services/urgentNegotiation.service.js:767-882 | an acceptance confirms and marks the latest attempt, and changes nothing else |
| `UrgentNegotiation.RejectionWrites` | backend/src/services/urgentNegotiation.service.js:928-1051 | a rejection or a missing answer ends the round with the stored proposal as floor; the third failed round cancels |
| `UrgentNegotiation.LockTimeoutWrites` | backend/src/services/urgentNegotiation.service.js:1148-1211 | a lock that times out ends the round and leaves the floor as it was |
| `UrgentNegotiation.ProposalBecomesFloor` | backend/src/services/urgentNegotiation.service.js:449-626 | the next rejection before two minutes, or the timeout after them, makes exactly the submitted proposal the floor |
| `UrgentNegotiation.LatestIndex` | backend/src/repositories/urgentNegotiation.repository.js:240-258 | the attempt with the greatest number |
| `UrgentNegotiation.StepKeepsInv` | backend/src/repositories/urgentNegotiation.repository.js:98-499 | every transaction keeps the negotiation's invariant |
| `UrgentNegotiation.RunKeepsInv` | backend/src/repositories/urgentNegotiation.repository.js:98-499 | the invariant holds after every run from a new negotiation |
| `UrgentNegotiation.LocksAreConserved` | backend/src/repositories/urgentNegotiation.repository.js:98-499 | successful locks are the counted failures plus a held or confirmed lock, and each lock is resolved at most once |
| `UrgentNegotiation.ReachableNegotiations` | backend/src/services/urgentNegotiation.service.js:87-103 | broadcasts hold no lock or decision fields, attempts are bounded, and each proposal that reached the customer beats every earlier one |
| `UrgentNegotiation.ClosedIsFinal` | backend/src/repositories/urgentNegotiation.repository.js:282-299 | no step leaves CONFIRMED or CANCELLED |
| `UrgentNegotiation.OutcomesAreFinal` | backend/src/repositories/urgentNegotiation.repository.js:260-280 | a resolved attempt and a closed negotiation never change, over every later run |
| `UrgentNegotiation.NegotiationsTerminate` | backend/src/constants/urgentNegotiationTimeoutConfig.js:4 | at most 3 * MAX_ATTEMPTS steps ever succeed |
| `UrgentNegotiation.LockableExactly` | backend/src/services/urgentNegotiation.service.js:284-447 | an eligible driver can lock a reachable negotiation if and only if it is broadcasting; the number of the new attempt is always free |
| `UrgentNegotiation.DeadlinesAreExact` | backend/src/services/urgentNegotiation.service.js:105-128 | at any instant a wait either runs or is ended by its timeout; while it runs, exactly the proposals of at least a minute, within the pickup window and below the floor go through, and the customer may accept or reject |
| `UrgentNegotiation.ProposalPossibleExactly` | backend/src/services/urgentNegotiation.service.js:55-103 | a held lock has an acceptable proposal if and only if its time runs, a minute remains until pickup, and no one-minute proposal was rejected |
| `UrgentNegotiation.HopelessIsNeverConfirmed` | backend/src/services/urgentNegotiation.service.js:87-103 | once a one-minute proposal was rejected, no later run reaches the customer or a confirmation |
| `UrgentNegotiation.LateIsNeverConfirmed` | backend/src/services/urgentNegotiation.service.js:66-85 | with less than a minute until pickup, no later run reaches the customer or a confirmation |
| `UrgentNegotiation.ConfirmableExactly` | backend/src/services/urgentNegotiation.service.js:55-103 | from an instant on, by one clock and one pickup time, eligible steps can still lead a broadcast to a confirmation if and only if a minute remains until pickup and no one-minute proposal was rejected |
| `UrgentNegotiation.HopelessIsReachable` | backend/src/services/urgentNegotiation.service.js:928-1051 | for every pickup time at least a minute away, a run of three steps to a broadcast whose one-minute proposal was rejected |
| `RateLimit.RateLimiter.PurgeExpiredBuckets` | backend/src/middlewares/rateLimit.middleware.js:9-16 | drops exactly the buckets that are neither blocked nor in an open window |
| `RateLimit.RateLimiter.Handle` | backend/src/middlewares/rateLimit.middleware.js:26-66 | decision, Retry-After and table after one request |
| `RateLimit.RejectedExactly` | backend/src/middlewares/rateLimit.middleware.js:33-63 | a request is rejected if and only if its key is blocked or its open window is full |
| `RateLimit.RequestWrites` | backend/src/middlewares/rateLimit.middleware.js:44-53 | the new window, the count, and the block that is due |
| `RateLimit.RetryAfterIsLeast` | backend/src/middlewares/rateLimit.middleware.js:33-56 | Retry-After is the least whole number of seconds, at least one, that covers the wait |
| `RateLimit.PurgingIsInvisible` | backend/src/middlewares/rateLimit.middleware.js:9-63 | every decision and Retry-After equals that of a limiter that forgets nothing |
| `RateLimit.SlidingBound` | backend/src/middlewares/rateLimit.middleware.js:18-67 | any half-open interval as long as the window admits a key at most 2 * max(1, max) times |
| `RateLimit.WindowAdmitsExactly` | backend/src/middlewares/rateLimit.middleware.js:44-65 | on every trace, with any other keys in between, a key's requests in one of its windows are admitted if and only if they are among the window's first max(1, max) |
| `RateLimit.KeysAreIndependent` | backend/src/middlewares/rateLimit.middleware.js:30-49 | a key's bucket depends on the requests of that key only |
| `RateLimit.DecisionsAreLocal` | backend/src/middlewares/rateLimit.middleware.js:26-66 | every decision of the purging limiter on a trace follows from the earlier requests of its key alone |
| `RateLimit.ShortPenaltyBreaksPromise` | backend/src/middlewares/rateLimit.middleware.js:51-56 | for every configuration outside the condition, a trace whose Retry-After is not honoured |
| `RateLimit.RetryAfterTruthfulExactly` | backend/src/middlewares/rateLimit.middleware.js:33-63 | on every trace, a key whose next request comes after the advertised seconds is admitted, for exactly the configurations with no penalty or one as long as the window |
| `RateLimit.RetryAfterIsNeeded` | backend/src/middlewares/rateLimit.middleware.js:33-63 | on every trace and for every configuration, a rejected key that comes back a second or more before the advertised time is rejected again |
| `SqlText.PrintedMeansWhatWasMeant` | backend/src/repositories/booking.repository.js:2057 | the printed text parses under SQL's precedence and means what the builder meant, using up its parameters in order |
| `BookingFilters.BuildAdminBookingFilters` | backend/src/repositories/booking.repository.js:1896-2058 | the WHERE text with its parameters is true of exactly the bookings the filter describes, on every branch |
| `BookingFilters.BuildNeedsActionWhere` | backend/src/repositories/booking.repository.js:1727-1829 | the disjunction under its parameters is true of exactly the bookings that need action |
| `BookingFilters.BuildIssuesWhere` | backend/src/repositories/booking.repository.js:1839-1894 | the disjunction under its parameters is true of exactly the bookings with an issue |
| `BookingFilters.NeedsActionMeans` | backend/src/repositories/booking.repository.js:1727-1829 | the needs-action fragments describe the needs-action bookings |
| `BookingFilters.IssuesMean` | backend/src/repositories/booking.repository.js:1839-1894 | the issue fragments describe the bookings with an issue |
| `BookingFilters.NoReasonSays` | backend/src/repositories/booking.repository.js:1757-1760 | the null-or-empty test is decided for every reason, though one half is unknown for null |
| `BookingFilters.AnyLikeMeans` | backend/src/repositories/booking.repository.js:2038-2055 | one repeated search term per searched column |
| `BookingFilters.CompilerPreservesMeaning` | backend/src/repositories/booking.repository.js:1896-2058 | for every filter and booking, evaluating the compiled text under its parameters is the declarative filter |
| `BookingFilters.IssuesNeedAction` | backend/src/repositories/booking.repository.js:1839-1894 | every booking the issues view selects, the needs-action view selects at the same instant |
| `Outbox.OutboxRepository.InsertNotificationEvent` | backend/src/repositories/outbox.repository.js:22-44 | a new pending event |
| `Outbox.OutboxRepository.ClaimPendingBatch` | backend/src/repositories/outbox.repository.js:104-152 | takes the first due rows by schedule and id that nobody has locked, up to the limit |
| `Outbox.OutboxRepository.ClaimById` | backend/src/repositories/outbox.repository.js:154-192 | refuses only an unknown or completed event |
| `Outbox.OutboxRepository.MarkCompleted` | backend/src/repositories/outbox.repository.js:194-206 | completes the row |
| `Outbox.OutboxRepository.MarkFailed` | backend/src/repositories/outbox.repository.js:208-229 | counts the failure first and then decides the status from the new count |
| `Outbox.BatchIsUnique` | backend/src/repositories/outbox.repository.js:104-117 | table, clock, locks and limit determine the batch |
| `Outbox.BatchInPlainTerms` | backend/src/repositories/outbox.repository.js:104-117 | a batch is takeable rows by schedule and id, and every takeable row left out comes later and finds the batch full |
| `Outbox.ClaimByIdWrites` | backend/src/repositories/outbox.repository.js:154-192 | a claim by id hands out every known event that is not completed, whatever its retries |
| `Outbox.BatchesAreEnabled` | backend/src/services/outboxProcessor.service.js:50-71 | a batch claim is a step of the runs below |
| `Outbox.RunsAreSound` | backend/src/repositories/outbox.repository.js:104-229 | over every run of batch claims, careful claims by id, and marks by holders or of completed rows, each PROCESSING event is in exactly one worker's hands, others in nobody's, and claims and failures stay within max_retries |
| `Outbox.CompletedIsFinal` | backend/src/repositories/outbox.repository.js:104-229 | a completed event never changes again unless somebody marks it failed |
| `Outbox.CompletedReopensExactly` | backend/src/services/outboxProcessor.service.js:17-31 | a careful step changes a completed event if and only if it marks it failed, and nobody holds the event then |
| `Outbox.MarkKeepsSoundExactly` | backend/src/repositories/outbox.repository.js:194-229 | a mark keeps the guarantees if and only if the worker holds the row or the row is completed |
| `Outbox.LostAnswerReopens` | backend/src/services/outboxProcessor.service.js:17-31 | a concrete run in which a completed event is marked failed by the worker that completed it, and is due again |
| `Outbox.ExhaustedIsFinal` | backend/src/repositories/outbox.repository.js:110-111 | an event out of retries never changes again |
| `Outbox.FailedMayStillBeClaimed` | backend/src/repositories/outbox.repository.js:212-219 | a failure leaves a FAILED row that can still be claimed exactly when two retries were left, and no claimable row exactly when every allowed claim was made |
| `Outbox.ClaimByIdKeepsSoundExactly` | backend/src/repositories/outbox.repository.js:154-192 | a claim by id keeps the guarantees if and only if it refuses or the row is idle with retries left |
| `Outbox.ClaimByIdHandsOutTwice` | backend/src/services/outboxProcessor.service.js:33-48 | a concrete run in which two workers hold one event and a completed event becomes pending again |
| `PasswordReset.DriverPasswordResetRepository.CreateCode` | backend/src/repositories/driverPasswordReset.repository.js:8-31 | retires the user's unused codes and adds the new one |
| `PasswordReset.DriverPasswordResetRepository.ConsumeCodeAndUpdatePassword` | backend/src/repositories/driverPasswordReset.repository.js:33-81 | new tables and answer of a try, on every branch |
| `PasswordReset.CreateWrites` | backend/src/repositories/driverPasswordReset.repository.js:8-23 | a new code retires the codes of its user, touches nobody else's, and starts unused and without failures |
| `PasswordReset.TryWritesExactly` | backend/src/repositories/driverPasswordReset.repository.js:36-74 | after every run: a matching try spends the newest code and changes the password, any other below the limit adds one failure to it and nothing else, beyond the limit nothing happens |
| `PasswordReset.AtMostOneUnusedCode` | backend/src/repositories/driverPasswordReset.repository.js:8-23 | a user never has two unused codes, over every run |
| `PasswordReset.CodesWorkOnce` | backend/src/repositories/driverPasswordReset.repository.js:33-74 | an accepted try is the last a code sees, and a try reaches a code only below the limit of failures |
| `PasswordReset.AcceptedExactly` | backend/src/repositories/driverPasswordReset.repository.js:36-60 | a try is accepted exactly when its hash is that of the newest code of the user, and that code is unused, unexpired and has fewer than maxAttempts failures |
| `PasswordReset.AcceptedButWithoutEffectExactly` | backend/src/repositories/driverPasswordReset.repository.js:62-71 | an accepted code changes the password and the token version exactly for an active driver |
| `DriverSchedule.AssertNoPickupTimeConflict` | backend/src/policies/driverBookingConflictPolicy.js:7-47 | passes exactly when the target has a time and every compared job is more than an hour away; otherwise names the first job in the way |
| `DriverSchedule.PassesInPlainTerms` | backend/src/policies/driverBookingConflictPolicy.js:5-46 | passing means more than 3600000 ms from every job but the excluded booking's |
| `DriverSchedule.CheckDecides` | backend/src/repositories/driver.repository.js:710-741 | over the rows the query lists, in any order and with or without an excluded booking, the check decides whether the slot is available |
| `DriverSchedule.StepKeepsSpacedExactly` | backend/src/services/adminDispatch.service.js:1238-1253 | a change keeps schedules spaced if and only if the check would pass |
| `DriverSchedule.RunsStaySpaced` | backend/src/policies/driverBookingConflictPolicy.js:5-47 | over every run of checked changes, two pickups of a driver are more than an hour apart |
| `DriverSchedule.JobsSpanHours` | backend/src/policies/driverBookingConflictPolicy.js:5-47 | among n jobs of a driver some two are more than n - 1 hours apart |
| `DriverSchedule.ListingAgreesExactly` | backend/src/repositories/booking.repository.js:1544-1558 | a call with a pickup time is listed if and only if it passes the check and no own job falls in the dropped fraction of a second |
| `DriverSchedule.StoredPickupsAgree` | backend/src/repositories/booking.repository.js:1544-1558 | for whole-second pickup times, listing and check are the same |
| `DriverSchedule.NoPickupTimeListedExactly` | backend/src/repositories/booking.repository.js:1553-1557 | a call without a pickup time is listed exactly to drivers without jobs, and never passes |
| `HtmlEscape.EscapeIsSubstitution` | blog/build.js:65-70 | the five replacements in sequence are one substitution per character |
| `HtmlEscape.DecodeEscaped` | blog/build.js:65-70 | decoding the escaped text gives back the text |
| `HtmlEscape.EscapedAmpersandsStartReferences` | blog/build.js:65-70 | every ampersand of escaped text starts one of the five references |
| `HtmlEscape.EscapedIsInert` | blog/build.js:65-70 | the escaped text holds no angle bracket or quote |

## Left out

- EmailSafety.AtMostOneEmailPerSlot: asks of each status update that a delivery that may have been accepted, and is not confirmed, is not recorded as never sent; without it the property is false (`EmailRecovery.UndisciplinedRunSendsTwice`), `EmailRecovery.LateVerdictAllowsSecondEmail` says from which states, and `EmailRecovery.RecordKeepsInvExactly` shows that the invariant needs no less.
- EmailRecovery.EveryRetryWasApproved: asks the same of refused deliveries too; `EmailRecovery.ForgottenDeliveryIsClaimableExactly` shows when a claim of a forgotten one is allowed without approval.
- EmailPolicy.GateAndHistoryAgree: texts are compared exactly. Under the column's case-insensitive collation the history also counts roles that differ from CUSTOMER in case or accents, which the gate does not send to; that only adds to what is counted.
- EmailRecovery.ApprovedDocumentIsTheOnlyOne: other writers of booking metadata may do anything in the model, so it asks them to leave the approval record alone while it is meant to stand.
- RateLimit.SlidingBound: needs a clock that does not run backwards, and one limiter per table of buckets.
- Outbox.RunsAreSound: claims by id are included only where they refuse or take an idle row with retries left, and marks only of held or completed rows, which `Outbox.ClaimByIdKeepsSoundExactly` and `Outbox.MarkKeepsSoundExactly` show to be exact.
- Outbox.CompletedIsFinal: asks that nobody marks the event failed after its completion; `Outbox.LostAnswerReopens` is a run in which a worker does.
- PasswordReset.AtMostOneUnusedCode: each transaction is one atomic step; how two concurrent code requests of one user interleave in the database is not modelled.
- SqlText.PrintedMeansWhatWasMeant: text comparison is exact and LIKE is a parameter; collation and the pattern language are not modelled.
- Booking and commission statuses in filters are the columns' enumerated values; a filter with another text, which selects nothing, is not modelled.
- The SQL of joins and EXISTS subqueries, JSON extraction from metadata and the ordering and paging of the admin queue: a row carries their results.
- Message envelopes are opaque texts; encryption, trace and message ids, provider ids, audit columns and the SMTP transport are left out.
- In-app and push channels, registered devices, and reading of notifications: they share tables with the e-mail protocol but no decision of it.
- The policy that disables some types of customer e-mail (`emailPolicyError`): a gate before the claim that can only refuse.
- A user's role does not change after a notification is stored: the role is part of the notification in the model. The user's deletion may come and go.
- The retention report (`tierAssignments`) and the inventory of backup files with their manifests: the model starts from the sorted inventory, and its month, week and day keys are arbitrary texts there.
- `evaluatePruneGate`: whether a cycle prunes is an arbitrary choice in the model, which covers every outcome of the gate.
- Backup file names (`parseBackupFilename`, `buildAtomicBackupPaths`): they would only add easy members.
- Eligibility of drivers, bookings, vehicles and assignments in urgent negotiation: one flag per step that can only refuse; socket messages and idempotent replays are left out.
- Error messages, HTTP status codes and the choice of the key of a request.
- Upper-casing of SMTP commands covers ASCII letters only.
- Mileage, coupon, idempotency and settlement repositories, controllers, routes and workers' schedules.
