/**
 * The outbox: workers claim due events in batches, and mark each one completed or failed. With
 * batch claims only, an event is never in two hands and never handed out more often than allowed.
 */
module Outbox {

  datatype OutboxStatus = PENDING | PROCESSING | COMPLETED | FAILED

  /** A row of outbox_events; its id is its position in the table. */
  datatype Row = Row(status: OutboxStatus, retryCount: nat, maxRetries: nat, scheduledAt: int)

  /** A row with its history: who holds it unmarked now, and how often it was handed out. */
  datatype Entry = Entry(row: Row, holders: set<nat>, claims: nat)

  type Table = seq<Entry>

  // ---------------------------------------------------------------- which rows a batch takes

  predicate Due(row: Row, now: int) {
    (row.status == PENDING || row.status == FAILED) && row.retryCount < row.maxRetries && row.scheduledAt <= now
  }

  /** ORDER BY scheduled_at ASC, id ASC */
  predicate Before(rows: seq<Row>, i: nat, j: nat)
    requires i < |rows| && j < |rows|
  {
    rows[i].scheduledAt < rows[j].scheduledAt || (rows[i].scheduledAt == rows[j].scheduledAt && i < j)
  }

  predicate Free(rows: seq<Row>, now: int, locked: set<nat>, i: nat) {
    i < |rows| && Due(rows[i], now) && i !in locked
  }

  /** The first `limit` due rows nobody else has locked, in order. */
  ghost predicate IsBatch(rows: seq<Row>, now: int, locked: set<nat>, limit: nat, ids: seq<nat>) {
    |ids| <= limit && Leads(rows, now, locked, ids)
    && (|ids| < limit ==> forall i: nat :: Free(rows, now, locked, i) ==> i in ids)
  }

  // `ids` are free, in order, and ahead of every other free row.
  ghost predicate Leads(rows: seq<Row>, now: int, locked: set<nat>, ids: seq<nat>) {
    (forall k :: 0 <= k < |ids| ==> Free(rows, now, locked, ids[k]))
    && (forall j, k :: 0 <= j < k < |ids| ==> Before(rows, ids[j], ids[k]))
    && (forall i: nat, k :: Free(rows, now, locked, i) && i !in ids && 0 <= k < |ids| ==> Before(rows, ids[k], i))
  }

  lemma LeadersDiffer(rows: seq<Row>, now: int, locked: set<nat>, ids: seq<nat>, j: nat, k: nat)
    requires Leads(rows, now, locked, ids) && j < k < |ids|
    ensures ids[j] != ids[k]
  {
    assert Before(rows, ids[j], ids[k]);
  }

  lemma LeadersAgree(rows: seq<Row>, now: int, locked: set<nat>, a: seq<nat>, b: seq<nat>, k: nat)
    requires Leads(rows, now, locked, a) && Leads(rows, now, locked, b)
    requires k < |a| && k < |b| && a[..k] == b[..k]
    ensures a[k] == b[k]
  {
    forall j: nat | j < k ensures b[j] != a[k] && a[j] != b[k] {
      assert a[..k][j] == a[j] && b[..k][j] == b[j];
      LeadersDiffer(rows, now, locked, a, j, k);
      LeadersDiffer(rows, now, locked, b, j, k);
    }
    assert a[k] != b[k] ==> Before(rows, b[k], a[k]);
    assert a[k] != b[k] ==> Before(rows, a[k], b[k]);
  }

  /** The batch is determined: the table, the clock, the locks and the limit leave no choice. */
  lemma {:induction false} BatchIsUnique(rows: seq<Row>, now: int, locked: set<nat>, limit: nat, a: seq<nat>,
                                         b: seq<nat>)
    requires IsBatch(rows, now, locked, limit, a) && IsBatch(rows, now, locked, limit, b)
    ensures a == b
  {
    var n := if |a| < |b| then |a| else |b|;
    AgreeUpTo(rows, now, locked, a, b, n);
    assert a[..|a|] == a && b[..|b|] == b;
    if n == |a| {
      if n < limit { NothingLeft(rows, now, locked, a, b); }
    } else {
      NothingLeft(rows, now, locked, b, a);
    }
  }

  lemma {:induction false} AgreeUpTo(rows: seq<Row>, now: int, locked: set<nat>, a: seq<nat>, b: seq<nat>, n: nat)
    requires Leads(rows, now, locked, a) && Leads(rows, now, locked, b)
    requires n <= |a| && n <= |b|
    ensures a[..n] == b[..n]
  {
    if n > 0 {
      AgreeUpTo(rows, now, locked, a, b, n - 1);
      LeadersAgree(rows, now, locked, a, b, n - 1);
      assert a[..n] == a[..n - 1] + [a[n - 1]] && b[..n] == b[..n - 1] + [b[n - 1]];
    }
  }

  function SetOf(ids: seq<nat>): set<nat> {
    set i <- ids
  }

  lemma {:induction false} DistinctSize(b: seq<nat>)
    requires forall j, k :: 0 <= j < k < |b| ==> b[j] != b[k]
    ensures |SetOf(b)| == |b|
  {
    if b != [] {
      var n := |b| - 1;
      DistinctSize(b[..n]);
      assert b[n] !in SetOf(b[..n]);
      assert b == b[..n] + [b[n]];
      assert SetOf(b) == SetOf(b[..n]) + {b[n]};
    }
  }

  // A list that holds every free row has no longer extension: no row is listed twice.
  lemma NothingLeft(rows: seq<Row>, now: int, locked: set<nat>, a: seq<nat>, b: seq<nat>)
    requires Leads(rows, now, locked, b) && |a| <= |b| && a == b[..|a|]
    requires forall i: nat :: Free(rows, now, locked, i) ==> i in a
    ensures |a| == |b|
  {
    forall j: nat, k: nat | j < k < |b| ensures b[j] != b[k] {
      LeadersDiffer(rows, now, locked, b, j, k);
    }
    forall j: nat, k: nat | j < k < |a| ensures a[j] != a[k] {
      assert a[j] == b[j] && a[k] == b[k];
    }
    DistinctSize(a);
    DistinctSize(b);
    assert SetOf(a) == SetOf(b);
  }

  /** Rows a claim may take at an instant: pending or failed, with retries left, scheduled by then, not locked. */
  predicate Takeable(rows: seq<Row>, now: int, locked: set<nat>, i: nat) {
    i < |rows| && i !in locked && (rows[i].status == PENDING || rows[i].status == FAILED)
    && rows[i].retryCount < rows[i].maxRetries && rows[i].scheduledAt <= now
  }

  /**
   * A batch in plain terms: takeable rows, earlier schedules first and equal ones by id, and every
   * takeable row left out comes after all of them and finds the batch full.
   */
  lemma BatchInPlainTerms(rows: seq<Row>, now: int, locked: set<nat>, limit: nat, ids: seq<nat>)
    requires IsBatch(rows, now, locked, limit, ids)
    ensures |ids| <= limit && forall k :: 0 <= k < |ids| ==> Takeable(rows, now, locked, ids[k])
    ensures forall j, k :: 0 <= j < k < |ids| ==>
              rows[ids[j]].scheduledAt < rows[ids[k]].scheduledAt
              || (rows[ids[j]].scheduledAt == rows[ids[k]].scheduledAt && ids[j] < ids[k])
    ensures forall i: nat :: Takeable(rows, now, locked, i) && i !in ids ==>
              |ids| == limit
              && forall k :: 0 <= k < |ids| ==>
                   rows[ids[k]].scheduledAt < rows[i].scheduledAt
                   || (rows[ids[k]].scheduledAt == rows[i].scheduledAt && ids[k] < i)
  {
    forall i: nat ensures Takeable(rows, now, locked, i) <==> Free(rows, now, locked, i) {
    }
    forall j, k | 0 <= j < k < |ids| ensures Before(rows, ids[j], ids[k]) {
    }
    forall i: nat, k | Takeable(rows, now, locked, i) && i !in ids && 0 <= k < |ids| ensures Before(rows, ids[k], i) {
    }
  }

  // ---------------------------------------------------------------- steps

  datatype Step =
    | Insert(maxRetries: nat, scheduledAt: int)
    | ClaimBatch(worker: nat, now: int, ids: set<nat>)
    | ClaimById(worker: nat, id: nat)
    | MarkCompleted(worker: nat, id: nat)
    | MarkFailed(worker: nat, id: nat)

  function Handed(e: Entry, worker: nat): Entry {
    Entry(e.row.(status := PROCESSING), e.holders + {worker}, e.claims + 1)
  }

  // SET retry_count = retry_count + 1, status = CASE WHEN retry_count + 1 >= max_retries ...:
  // assignments run left to right, so the CASE already sees the new count.
  function FailedRow(row: Row): Row {
    var counted := row.(retryCount := row.retryCount + 1);
    counted.(status := if counted.retryCount + 1 >= counted.maxRetries then FAILED else PENDING)
  }

  function Marked(e: Entry, worker: nat, row: Row): Entry {
    Entry(row, e.holders - {worker}, e.claims)
  }

  /** claimById refuses only an unknown or COMPLETED event. */
  predicate HandsOut(t: Table, id: nat) {
    id < |t| && t[id].row.status != COMPLETED
  }

  function After(t: Table, step: Step): Table {
    match step
    case Insert(maxRetries, scheduledAt) => t + [Entry(Row(PENDING, 0, maxRetries, scheduledAt), {}, 0)]
    case ClaimBatch(worker, _, ids) =>
      seq(|t|, i requires 0 <= i < |t| => if i in ids then Handed(t[i], worker) else t[i])
    case ClaimById(worker, id) => if HandsOut(t, id) then t[id := Handed(t[id], worker)] else t
    case MarkCompleted(worker, id) =>
      if id < |t| then t[id := Marked(t[id], worker, t[id].row.(status := COMPLETED))] else t
    case MarkFailed(worker, id) => if id < |t| then t[id := Marked(t[id], worker, FailedRow(t[id].row))] else t
  }

  /** A claim by id hands out every known event that is not completed, whatever its retries. */
  lemma ClaimByIdWrites(t: Table, worker: nat, id: nat)
    ensures After(t, ClaimById(worker, id))
         == if id < |t| && t[id].row.status != COMPLETED
            then t[id := Entry(Row(PROCESSING, t[id].row.retryCount, t[id].row.maxRetries, t[id].row.scheduledAt),
                               t[id].holders + {worker}, t[id].claims + 1)]
            else t
  {
  }

  function Rows(t: Table): (rows: seq<Row>)
    ensures |rows| == |t| && forall i :: 0 <= i < |t| ==> rows[i] == t[i].row
  {
    seq(|t|, i requires 0 <= i < |t| => t[i].row)
  }

  /**
   * A batch claim takes due rows only, and a worker that claims is new to the row (every claim is
   * its own piece of work). A mark may come from anyone: a worker whose completion was applied but
   * not acknowledged marks the row failed afterwards.
   */
  ghost predicate Enabled(t: Table, step: Step) {
    match step
    case Insert(_, _) => true
    case ClaimBatch(worker, now, ids) => forall i <- ids :: i < |t| && Due(t[i].row, now) && worker !in t[i].holders
    case ClaimById(worker, id) => HandsOut(t, id) ==> worker !in t[id].holders
    case MarkCompleted(_, id) => id < |t|
    case MarkFailed(_, id) => id < |t|
  }

  function AfterAll(t: Table, steps: seq<Step>): Table
    decreases |steps|
  {
    if steps == [] then t else After(AfterAll(t, steps[..|steps| - 1]), steps[|steps| - 1])
  }

  /**
   * A claim by id that refuses, or takes a row a batch could have taken but for its schedule; a mark
   * of a row the worker holds, or of a completed one. Batch claims are careful anyway.
   */
  predicate Careful(t: Table, step: Step) {
    (step.ClaimById? && HandsOut(t, step.id) ==>
       t[step.id].row.status != PROCESSING && t[step.id].row.retryCount < t[step.id].row.maxRetries)
    && ((step.MarkCompleted? || step.MarkFailed?) && step.id < |t| ==>
          step.worker in t[step.id].holders || t[step.id].row.status == COMPLETED)
  }

  ghost predicate IsRun(t: Table, steps: seq<Step>, careful: bool)
    decreases |steps|
  {
    steps == []
    || (IsRun(t, steps[..|steps| - 1], careful)
        && Enabled(AfterAll(t, steps[..|steps| - 1]), steps[|steps| - 1])
        && (careful ==> Careful(AfterAll(t, steps[..|steps| - 1]), steps[|steps| - 1])))
  }

  // ---------------------------------------------------------------- what every run keeps

  /** In exactly one hand while PROCESSING, in none otherwise; every claim is accounted for. */
  ghost predicate Sound(e: Entry) {
    (if e.row.status == PROCESSING then exists w :: e.holders == {w} else e.holders == {})
    && e.claims == e.row.retryCount + (if e.row.status == PROCESSING || e.row.status == COMPLETED then 1 else 0)
    && e.claims <= e.row.maxRetries
  }

  ghost predicate AllSound(t: Table) {
    forall i :: 0 <= i < |t| ==> Sound(t[i])
  }

  lemma HandingKeepsSound(e: Entry, worker: nat)
    requires Sound(e) && (e.row.status == PENDING || e.row.status == FAILED) && e.row.retryCount < e.row.maxRetries
    ensures Sound(Handed(e, worker))
  {
    assert Handed(e, worker).holders == {worker};
  }

  lemma MarkingKeepsSoundExactly(e: Entry, worker: nat)
    requires Sound(e)
    ensures var careful := worker in e.holders || e.row.status == COMPLETED;
            (Sound(Marked(e, worker, e.row.(status := COMPLETED))) <==> careful)
            && (Sound(Marked(e, worker, FailedRow(e.row))) <==> careful)
  {
    if worker in e.holders || e.holders == {} {
      assert e.holders - {worker} == {};
    } else {
      var w :| e.holders == {w};
      assert w in e.holders - {worker};
    }
  }

  lemma StepKeepsSound(t: Table, step: Step)
    requires AllSound(t) && Enabled(t, step) && Careful(t, step)
    ensures AllSound(After(t, step))
  {
    match step
    case Insert(_, _) =>
    case ClaimBatch(worker, now, ids) =>
      forall i | 0 <= i < |t| && i in ids ensures Sound(After(t, step)[i]) {
        HandingKeepsSound(t[i], worker);
      }
    case ClaimById(worker, id) =>
      if HandsOut(t, id) { HandingKeepsSound(t[id], worker); }
    case MarkCompleted(worker, id) => MarkingKeepsSoundExactly(t[id], worker);
    case MarkFailed(worker, id) => MarkingKeepsSoundExactly(t[id], worker);
  }

  /**
   * Over every run of batch claims and careful claims by id: each PROCESSING event is in exactly
   * one worker's hands, every other event in nobody's, and no event is claimed, or fails, more
   * than max_retries times.
   */
  lemma {:induction false} RunsAreSound(t: Table, steps: seq<Step>)
    requires AllSound(t) && IsRun(t, steps, true)
    ensures AllSound(AfterAll(t, steps))
    ensures forall e <- AfterAll(t, steps) :: e.row.retryCount <= e.claims <= e.row.maxRetries
    decreases |steps|
  {
    if steps != [] {
      RunsAreSound(t, steps[..|steps| - 1]);
      StepKeepsSound(AfterAll(t, steps[..|steps| - 1]), steps[|steps| - 1]);
    }
  }

  /** A completed event changes exactly when somebody marks it failed, which no holder can do. */
  lemma CompletedReopensExactly(t: Table, step: Step, id: nat)
    requires AllSound(t) && Enabled(t, step) && Careful(t, step) && id < |t| && t[id].row.status == COMPLETED
    ensures After(t, step)[id] != t[id] <==> step.MarkFailed? && step.id == id
    ensures t[id].holders == {}
  {
    assert Sound(t[id]);
    if step.MarkCompleted? { assert t[id].holders - {step.worker} == t[id].holders; }
  }

  /** COMPLETED is final over every such run in which nobody marks the event failed any more. */
  lemma {:induction false} CompletedIsFinal(t: Table, steps: seq<Step>, id: nat)
    requires AllSound(t) && IsRun(t, steps, true) && id < |t| && t[id].row.status == COMPLETED
    requires forall s <- steps :: !(s.MarkFailed? && s.id == id)
    ensures id < |AfterAll(t, steps)| && AfterAll(t, steps)[id] == t[id]
    decreases |steps|
  {
    if steps != [] {
      var init, last := steps[..|steps| - 1], steps[|steps| - 1];
      assert last in steps && forall s <- init :: s in steps;
      CompletedIsFinal(t, init, id);
      RunsAreSound(t, init);
      CompletedReopensExactly(AfterAll(t, init), last, id);
    }
  }

  /** An exhausted event is never claimed again, and an event never changes its budget. */
  lemma {:induction false} ExhaustedIsFinal(t: Table, steps: seq<Step>, id: nat)
    requires AllSound(t) && IsRun(t, steps, true) && id < |t|
    requires t[id].row.retryCount == t[id].row.maxRetries
    ensures id < |AfterAll(t, steps)| && AfterAll(t, steps)[id] == t[id]
    decreases |steps|
  {
    if steps != [] {
      var before := AfterAll(t, steps[..|steps| - 1]);
      ExhaustedIsFinal(t, steps[..|steps| - 1], id);
      RunsAreSound(t, steps[..|steps| - 1]);
      assert Sound(before[id]);
    }
  }

  /**
   * FAILED does not mean exhausted: because the CASE reads the incremented counter, the status
   * turns FAILED one attempt early, and exactly then the failed event can still be claimed.
   */
  lemma FailedMayStillBeClaimed(e: Entry, now: int)
    requires Sound(e) && e.row.status == PROCESSING && e.row.scheduledAt <= now
    ensures var failed := FailedRow(e.row);
            (failed.status == FAILED && Due(failed, now) <==> e.row.retryCount + 2 == e.row.maxRetries)
            && (failed.status == PENDING ==> Due(failed, now))
            && (!Due(failed, now) <==> e.claims == e.row.maxRetries)
  {
    assert e.claims == e.row.retryCount + 1;
  }

  // ---------------------------------------------------------------- claims by id

  /** A mark keeps the guarantees exactly when the worker holds the row or the row is completed. */
  lemma MarkKeepsSoundExactly(t: Table, step: Step)
    requires AllSound(t) && Enabled(t, step) && (step.MarkCompleted? || step.MarkFailed?)
    ensures AllSound(After(t, step)) <==> Careful(t, step)
  {
    assert Sound(t[step.id]);
    MarkingKeepsSoundExactly(t[step.id], step.worker);
    if AllSound(After(t, step)) {
      assert Sound(After(t, step)[step.id]);
    }
  }

  /** A claim by id keeps the guarantees exactly when it is careful. */
  lemma ClaimByIdKeepsSoundExactly(t: Table, worker: nat, id: nat)
    requires AllSound(t) && Enabled(t, ClaimById(worker, id))
    ensures AllSound(After(t, ClaimById(worker, id)))
       <==> Careful(t, ClaimById(worker, id))
  {
    if HandsOut(t, id) {
      var after := Handed(t[id], worker);
      assert Sound(t[id]) && After(t, ClaimById(worker, id))[id] == after;
      if t[id].row.status == PROCESSING {
        var w :| t[id].holders == {w};
        assert w in after.holders && worker in after.holders && w != worker;
      } else if t[id].row.retryCount < t[id].row.maxRetries {
        HandingKeepsSound(t[id], worker);
      }
    }
  }

  const TWO_HANDS: seq<Step> := [Insert(3, 0), ClaimBatch(1, 0, {0}), ClaimById(2, 0)]

  const CLAIMED := Row(PROCESSING, 0, 3, 0)

  lemma SecondClaimRuns()
    ensures IsRun([], TWO_HANDS, false) && AfterAll([], TWO_HANDS) == [Entry(CLAIMED, {1, 2}, 2)]
  {
    var none: Table := [];
    var queued := Entry(Row(PENDING, 0, 3, 0), {}, 0);
    assert none + [queued] == [queued];
    RunGrows(none, [], Insert(3, 0));
    assert Handed(queued, 1) == Entry(CLAIMED, {1}, 1);
    assert After([queued], ClaimBatch(1, 0, {0})) == [Entry(CLAIMED, {1}, 1)];
    RunGrows(none, [Insert(3, 0)], ClaimBatch(1, 0, {0}));
    assert [Insert(3, 0)] + [ClaimBatch(1, 0, {0})] == [Insert(3, 0), ClaimBatch(1, 0, {0})];
    assert Handed(Entry(CLAIMED, {1}, 1), 2) == Entry(CLAIMED, {1, 2}, 2);
    RunGrows(none, [Insert(3, 0), ClaimBatch(1, 0, {0})], ClaimById(2, 0));
    assert [Insert(3, 0), ClaimBatch(1, 0, {0})] + [ClaimById(2, 0)] == TWO_HANDS;
  }

  const DONE: seq<Step> := [Insert(3, 0), ClaimBatch(1, 0, {0}), MarkCompleted(1, 0)]

  lemma DoneRuns()
    ensures IsRun([], DONE, true) && AfterAll([], DONE) == [Entry(CLAIMED.(status := COMPLETED), {}, 1)]
  {
    var none: Table := [];
    var nobody: set<nat> := {};
    var queued := Entry(Row(PENDING, 0, 3, 0), {}, 0);
    assert none + [queued] == [queued];
    RunGrows(none, [], Insert(3, 0));
    assert After([queued], ClaimBatch(1, 0, {0})) == [Entry(CLAIMED, {1}, 1)] by {
      assert Handed(queued, 1) == Entry(CLAIMED, {1}, 1);
    }
    RunGrows(none, [Insert(3, 0)], ClaimBatch(1, 0, {0}));
    assert [Insert(3, 0)] + [ClaimBatch(1, 0, {0})] == [Insert(3, 0), ClaimBatch(1, 0, {0})];
    assert {1} - {1} == nobody;
    assert After([Entry(CLAIMED, {1}, 1)], MarkCompleted(1, 0)) == [Entry(CLAIMED.(status := COMPLETED), {}, 1)];
    RunGrows(none, [Insert(3, 0), ClaimBatch(1, 0, {0})], MarkCompleted(1, 0));
    assert [Insert(3, 0), ClaimBatch(1, 0, {0})] + [MarkCompleted(1, 0)] == DONE;
  }

  /** A worker that completed an event, but lost the answer and marks it failed, has it done a second time. */
  lemma LostAnswerReopens()
    ensures var failed := DONE + [MarkFailed(1, 0)];
            IsRun([], failed, true) && AfterAll([], failed) == [Entry(Row(PENDING, 1, 3, 0), {}, 1)]
            && Due(AfterAll([], failed)[0].row, 0)
  {
    DoneRuns();
    var nobody: set<nat> := {};
    assert nobody - {1} == nobody;
    var done := [Entry(CLAIMED.(status := COMPLETED), {}, 1)];
    assert After(done, MarkFailed(1, 0)) == [Entry(Row(PENDING, 1, 3, 0), {}, 1)];
    RunGrows([], DONE, MarkFailed(1, 0));
  }

  /** With claims by id, two workers hold one event, and a COMPLETED event comes back as PENDING. */
  lemma ClaimByIdHandsOutTwice()
    ensures var done := TWO_HANDS + [MarkCompleted(1, 0)];
            IsRun([], TWO_HANDS, false) && AfterAll([], TWO_HANDS) == [Entry(CLAIMED, {1, 2}, 2)]
            && IsRun([], done, false) && AfterAll([], done) == [Entry(CLAIMED.(status := COMPLETED), {2}, 2)]
            && IsRun([], done + [MarkFailed(2, 0)], false)
            && AfterAll([], done + [MarkFailed(2, 0)]) == [Entry(Row(PENDING, 1, 3, 0), {}, 2)]
  {
    SecondClaimRuns();
    var both := [Entry(CLAIMED, {1, 2}, 2)];
    var nobody: set<nat> := {};
    assert {1, 2} - {1} == {2} && {2} - {2} == nobody;
    assert After(both, MarkCompleted(1, 0)) == [Entry(CLAIMED.(status := COMPLETED), {2}, 2)];
    RunGrows([], TWO_HANDS, MarkCompleted(1, 0));
    RunGrows([], TWO_HANDS + [MarkCompleted(1, 0)], MarkFailed(2, 0));
  }

  lemma RunGrows(t: Table, s: seq<Step>, last: Step)
    ensures AfterAll(t, s + [last]) == After(AfterAll(t, s), last)
    ensures IsRun(t, s, false) && Enabled(AfterAll(t, s), last) ==> IsRun(t, s + [last], false)
    ensures IsRun(t, s, true) && Enabled(AfterAll(t, s), last) && Careful(AfterAll(t, s), last) ==>
              IsRun(t, s + [last], true)
  {
    assert (s + [last])[..|s|] == s;
  }

  // UPDATE ... SET status = 'PROCESSING' WHERE id IN (ids)
  function Taken(rows: seq<Row>, ids: seq<nat>): seq<Row> {
    seq(|rows|, i requires 0 <= i < |rows| => if i in ids then rows[i].(status := PROCESSING) else rows[i])
  }

  lemma TakeAll(t: Table, rows: seq<Row>, worker: nat, now: int, ids: seq<nat>)
    requires rows == Rows(t)
    ensures Taken(rows, ids) == Rows(After(t, ClaimBatch(worker, now, SetOf(ids))))
  {
  }

  // ---------------------------------------------------------------- the repository

  class OutboxRepository {
    var rows: seq<Row>
    ghost var table: Table

    ghost predicate Valid()
      reads this
    {
      rows == Rows(table)
    }

    constructor ()
      ensures Valid() && table == []
    {
      rows, table := [], [];
    }

    method InsertNotificationEvent(maxRetries: nat, scheduledAt: int)
      requires Valid()
      modifies this
      ensures Valid() && table == After(old(table), Insert(maxRetries, scheduledAt))
    {
      table := After(table, Insert(maxRetries, scheduledAt));
      rows := rows + [Row(PENDING, 0, maxRetries, scheduledAt)];
    }

    // The first free row that is not in `taken`.
    method Earliest(now: int, locked: set<nat>, taken: set<nat>) returns (found: bool, best: nat)
      ensures found ==> Free(rows, now, locked, best) && best !in taken
      ensures found ==> forall i: nat :: Free(rows, now, locked, i) && i !in taken && i != best ==>
                                           Before(rows, best, i)
      ensures !found ==> forall i: nat :: Free(rows, now, locked, i) ==> i in taken
    {
      found, best := false, 0;
      for i := 0 to |rows|
        invariant found ==> Free(rows, now, locked, best) && best !in taken && best < i
        invariant found ==> forall j: nat :: j < i && Free(rows, now, locked, j) && j !in taken && j != best
                                             ==> Before(rows, best, j)
        invariant !found ==> forall j: nat :: j < i && Free(rows, now, locked, j) ==> j in taken
      {
        if Due(rows[i], now) && i !in locked && i !in taken && (!found || Before(rows, i, best)) {
          found, best := true, i;
        }
      }
    }

    /** claimPendingBatch: takes the batch the ordering and the limit determine, and hands it to `worker`. */
    method ClaimPendingBatch(ghost worker: nat, now: int, limit: nat, locked: set<nat>) returns (ids: seq<nat>)
      requires Valid()
      modifies this
      ensures Valid() && IsBatch(old(rows), now, locked, limit, ids)
      ensures table == After(old(table), Step.ClaimBatch(worker, now, SetOf(ids)))
      ensures |rows| == |old(rows)|
      ensures forall i :: 0 <= i < |rows| ==>
                var was := old(rows)[i];
                rows[i] == if i in ids then Row(PROCESSING, was.retryCount, was.maxRetries, was.scheduledAt) else was
    {
      ids := [];
      var found := true;
      while found && |ids| < limit
        invariant rows == old(rows) && table == old(table)
        invariant |ids| <= limit && Leads(rows, now, locked, ids)
        invariant !found ==> forall i: nat :: Free(rows, now, locked, i) ==> i in ids
        decreases limit - |ids|, found
      {
        var best;
        found, best := Earliest(now, locked, SetOf(ids));
        if found {
          ids := ids + [best];
        }
      }
      TakeAll(table, rows, worker, now, ids);
      table := After(table, Step.ClaimBatch(worker, now, SetOf(ids)));
      rows := Taken(rows, ids);
    }

    /** claimById: also takes a row that is PROCESSING, or out of retries. */
    method ClaimById(ghost worker: nat, id: nat) returns (claimed: bool)
      requires Valid()
      modifies this
      ensures Valid() && table == After(old(table), Step.ClaimById(worker, id))
      ensures claimed <==> id < |old(rows)| && old(rows)[id].status != COMPLETED
      ensures rows == if claimed then old(rows)[id := old(rows)[id].(status := PROCESSING)] else old(rows)
    {
      claimed := id < |rows| && rows[id].status != COMPLETED;
      table := After(table, Step.ClaimById(worker, id));
      if claimed {
        rows := rows[id := rows[id].(status := PROCESSING)];
      }
    }

    method MarkCompleted(ghost worker: nat, id: nat)
      requires Valid()
      modifies this
      ensures Valid() && table == After(old(table), Step.MarkCompleted(worker, id))
      ensures rows == if id < |old(rows)| then old(rows)[id := old(rows)[id].(status := COMPLETED)] else old(rows)
    {
      table := After(table, Step.MarkCompleted(worker, id));
      if id < |rows| {
        rows := rows[id := rows[id].(status := COMPLETED)];
      }
    }

    method MarkFailed(ghost worker: nat, id: nat)
      requires Valid()
      modifies this
      ensures Valid() && table == After(old(table), Step.MarkFailed(worker, id))
      ensures id >= |old(rows)| ==> rows == old(rows)
      ensures id < |old(rows)| ==>
                var was := old(rows)[id];
                rows == old(rows)[id := Row(if was.retryCount + 2 >= was.maxRetries then FAILED else PENDING,
                                            was.retryCount + 1, was.maxRetries, was.scheduledAt)]
    {
      table := After(table, Step.MarkFailed(worker, id));
      if id < |rows| {
        var counted := rows[id].(retryCount := rows[id].retryCount + 1);
        var status := if counted.retryCount + 1 >= counted.maxRetries then FAILED else PENDING;
        rows := rows[id := counted.(status := status)];
      }
    }
  }

  /** A batch claim by a worker new to the rows is an enabled step, so the run theorems cover it. */
  lemma BatchesAreEnabled(t: Table, worker: nat, now: int, locked: set<nat>, limit: nat, ids: seq<nat>)
    requires IsBatch(Rows(t), now, locked, limit, ids)
    requires forall e <- t :: worker !in e.holders
    ensures Enabled(t, ClaimBatch(worker, now, SetOf(ids)))
  {
    forall i | i in SetOf(ids) ensures i < |t| && Due(t[i].row, now) && worker !in t[i].holders {
      var k :| 0 <= k < |ids| && ids[k] == i;
      assert Free(Rows(t), now, locked, ids[k]);
      assert t[i] in t;
    }
  }
}
