/**
 * Driver schedules: an assignment is accepted only when its pickup is more than an hour away from
 * every pickup the driver already has, and the list of open calls anticipates that check.
 */
module DriverSchedule {
  import opened Basics

  const MIN_GAP_MS := 60 * 60 * 1000
  const MIN_GAP_SECONDS := 3600

  /** A pickup time as the policy receives it. */
  datatype Stamp = Missing | Unreadable | At(ms: int)

  /** A row of findActiveAssignmentPickupsForConflict. */
  datatype Job = Job(bookingId: nat, pickup: Stamp)

  datatype Verdict = Clear | TargetMissing | JobMissing(at: nat) | TooClose(at: nat)

  function Abs(x: int): nat {
    if x < 0 then -x else x
  }

  predicate FarApart(a: Stamp, b: Stamp) {
    a.At? && b.At? && Abs(a.ms - b.ms) > MIN_GAP_MS
  }

  predicate Compared(job: Job, exclude: Option<nat>) {
    exclude != Some(job.bookingId)
  }

  predicate Passes(jobs: seq<Job>, target: Stamp, exclude: Option<nat>) {
    target.At? && forall job <- jobs :: Compared(job, exclude) ==> FarApart(job.pickup, target)
  }

  /** assertNoPickupTimeConflict: the first row in the way decides the error. */
  method AssertNoPickupTimeConflict(jobs: seq<Job>, target: Stamp, exclude: Option<nat>) returns (v: Verdict)
    ensures v == Clear <==> Passes(jobs, target, exclude)
    ensures v == TargetMissing <==> !target.At?
    ensures v.JobMissing? || v.TooClose? ==>
      v.at < |jobs| && Compared(jobs[v.at], exclude) && Passes(jobs[..v.at], target, exclude)
      && (v.JobMissing? <==> !jobs[v.at].pickup.At?) && !FarApart(jobs[v.at].pickup, target)
  {
    if !target.At? {
      return TargetMissing;
    }
    for i := 0 to |jobs|
      invariant Passes(jobs[..i], target, exclude)
    {
      assert jobs[..i + 1] == jobs[..i] + [jobs[i]];
      if exclude.Some? && jobs[i].bookingId == exclude.value {
        continue;
      }
      if !jobs[i].pickup.At? {
        return JobMissing(i);
      }
      if Abs(jobs[i].pickup.ms - target.ms) <= MIN_GAP_MS {
        return TooClose(i);
      }
    }
    assert jobs[..|jobs|] == jobs;
    return Clear;
  }

  /** The check in plain terms: more than 3600000 ms from every job but the excluded booking's. */
  lemma PassesInPlainTerms(jobs: seq<Job>, target: Stamp, exclude: Option<nat>)
    ensures Passes(jobs, target, exclude)
       <==> target.At?
            && forall k :: 0 <= k < |jobs| && exclude != Some(jobs[k].bookingId) ==>
                 jobs[k].pickup.At?
                 && (jobs[k].pickup.ms - target.ms > 3600000 || target.ms - jobs[k].pickup.ms > 3600000)
  {
    if Passes(jobs, target, exclude) {
      forall k | 0 <= k < |jobs| && exclude != Some(jobs[k].bookingId) ensures FarApart(jobs[k].pickup, target) {
        assert jobs[k] in jobs && Compared(jobs[k], exclude);
      }
    }
  }

  // ---------------------------------------------------------------- schedules

  datatype Assignment = Assignment(driverId: nat, pickup: Stamp)

  /** The active assignment of each booking that has one. */
  type Schedule = map<nat, Assignment>

  /** Every job of the driver is listed, in any order; the query leaves out the booking it excludes. */
  ghost predicate ListsJobs(jobs: seq<Job>, s: Schedule, driverId: nat, exclude: Option<nat>) {
    (forall job <- jobs :: job.bookingId in s && s[job.bookingId] == Assignment(driverId, job.pickup))
    && (forall job <- jobs :: exclude != Some(job.bookingId))
    && forall b <- s :: s[b].driverId == driverId && exclude != Some(b) ==> Job(b, s[b].pickup) in jobs
  }

  predicate Available(s: Schedule, driverId: nat, pickup: Stamp, bookingId: nat) {
    pickup.At? && forall b <- s :: s[b].driverId == driverId && b != bookingId ==> FarApart(s[b].pickup, pickup)
  }

  /**
   * The check says exactly whether the slot is available, over the rows of a query that excludes
   * the booking, or of one without exclusion when the driver does not hold the booking yet.
   */
  lemma CheckDecides(jobs: seq<Job>, s: Schedule, driverId: nat, pickup: Stamp, bookingId: nat, exclude: Option<nat>)
    requires ListsJobs(jobs, s, driverId, exclude)
    requires exclude == Some(bookingId)
             || (exclude == None && (bookingId in s ==> s[bookingId].driverId != driverId))
    ensures Passes(jobs, pickup, exclude) <==> Available(s, driverId, pickup, bookingId)
    ensures Passes(jobs, pickup, exclude)
       <==> pickup.At?
            && forall b <- s :: s[b].driverId == driverId && b != bookingId ==>
                 s[b].pickup.At?
                 && (s[b].pickup.ms - pickup.ms > 3600000 || pickup.ms - s[b].pickup.ms > 3600000)
  {
    if Passes(jobs, pickup, exclude) {
      forall b | b in s && s[b].driverId == driverId && b != bookingId ensures FarApart(s[b].pickup, pickup) {
        assert Job(b, s[b].pickup) in jobs;
      }
    }
  }

  datatype Step =
    | Assign(bookingId: nat, driverId: nat, pickup: Stamp)  // a first assignment or a reassignment
    | Release(bookingId: nat)                               // released, cancelled, completed or archived
    | Move(bookingId: nat, pickup: Stamp)                   // the booking's pickup time is edited

  predicate Guarded(s: Schedule, step: Step) {
    match step
    case Assign(b, d, t) => Available(s, d, t, b)
    case Release(_) => true
    case Move(b, t) => b in s ==> Available(s, s[b].driverId, t, b)
  }

  function After(s: Schedule, step: Step): Schedule {
    match step
    case Assign(b, d, t) => s[b := Assignment(d, t)]
    case Release(b) => s - {b}
    case Move(b, t) => if b in s then s[b := s[b].(pickup := t)] else s
  }

  function AfterAll(s: Schedule, steps: seq<Step>): Schedule
    decreases |steps|
  {
    if steps == [] then s else After(AfterAll(s, steps[..|steps| - 1]), steps[|steps| - 1])
  }

  predicate IsRun(s: Schedule, steps: seq<Step>)
    decreases |steps|
  {
    steps == []
    || (IsRun(s, steps[..|steps| - 1]) && Guarded(AfterAll(s, steps[..|steps| - 1]), steps[|steps| - 1]))
  }

  ghost predicate Spaced(s: Schedule) {
    (forall b <- s :: s[b].pickup.At?)
    && forall b, c :: b in s && c in s && b != c && s[b].driverId == s[c].driverId ==>
                        FarApart(s[b].pickup, s[c].pickup)
  }

  /** A step keeps every schedule spaced exactly when the check would have passed. */
  lemma StepKeepsSpacedExactly(s: Schedule, step: Step)
    requires Spaced(s)
    ensures Spaced(After(s, step)) <==> Guarded(s, step)
  {
    var next := After(s, step);
    if Spaced(next) && !step.Release? && step.bookingId in next {
      forall b | b in s && s[b].driverId == next[step.bookingId].driverId && b != step.bookingId
        ensures FarApart(s[b].pickup, next[step.bookingId].pickup)
      {
        assert b in next && next[b] == s[b];
      }
    }
  }

  /** Over every run of checked steps, every two pickups of a driver are more than an hour apart. */
  lemma {:induction false} RunsStaySpaced(steps: seq<Step>)
    requires IsRun(map[], steps)
    ensures Spaced(AfterAll(map[], steps))
    ensures var s := AfterAll(map[], steps);
            forall b, c :: b in s && c in s && b != c && s[b].driverId == s[c].driverId ==>
              s[b].pickup.At? && s[c].pickup.At?
              && (s[b].pickup.ms - s[c].pickup.ms > 3600000 || s[c].pickup.ms - s[b].pickup.ms > 3600000)
    decreases |steps|
  {
    if steps != [] {
      RunsStaySpaced(steps[..|steps| - 1]);
      StepKeepsSpacedExactly(AfterAll(map[], steps[..|steps| - 1]), steps[|steps| - 1]);
    }
  }

  // ---------------------------------------------------------------- a day has room for so many jobs

  ghost predicate PairwiseFar(times: seq<int>) {
    forall i, j :: 0 <= i < j < |times| ==> Abs(times[i] - times[j]) > MIN_GAP_MS
  }

  lemma {:induction false} LatestAndEarliest(times: seq<int>) returns (hi: nat, lo: nat)
    requires times != []
    ensures hi < |times| && lo < |times| && forall t <- times :: times[lo] <= t <= times[hi]
  {
    hi, lo := 0, 0;
    if |times| > 1 {
      var n := |times| - 1;
      hi, lo := LatestAndEarliest(times[..n]);
      assert times == times[..n] + [times[n]];
      hi := if times[n] > times[hi] then n else hi;
      lo := if times[n] < times[lo] then n else lo;
    }
  }

  function Without(times: seq<int>, at: nat): (rest: seq<int>)
    requires at < |times|
    ensures |rest| == |times| - 1
    ensures forall k :: 0 <= k < |rest| ==> rest[k] == times[if k < at then k else k + 1]
  {
    times[..at] + times[at + 1..]
  }

  // All the other pickups are more than the gap before the latest one.
  lemma OthersAreEarlier(times: seq<int>, hi: nat)
    requires PairwiseFar(times) && hi < |times| && forall t <- times :: t <= times[hi]
    ensures PairwiseFar(Without(times, hi))
    ensures forall k :: 0 <= k < |times| - 1 ==> Without(times, hi)[k] + MIN_GAP_MS < times[hi]
  {
    forall k | 0 <= k < |times| - 1 ensures Without(times, hi)[k] + MIN_GAP_MS < times[hi] {
      var at := if k < hi then k else k + 1;
      assert times[at] in times;
      assert Abs(times[at] - times[hi]) > MIN_GAP_MS by {
        if at < hi { assert Abs(times[at] - times[hi]) > MIN_GAP_MS; }
      }
    }
  }

  // Dropping the latest pickup shortens the span by more than the gap.
  lemma {:induction false} SpanGrows(times: seq<int>, lo: nat, hi: nat)
    requires PairwiseFar(times) && lo < |times| && hi < |times|
    requires forall t <- times :: times[lo] <= t <= times[hi]
    ensures times[hi] - times[lo] >= (|times| - 1) * (MIN_GAP_MS + 1)
    decreases |times|
  {
    if |times| > 1 {
      OthersAreEarlier(times, hi);
      var rest := Without(times, hi);
      var top, low := LatestAndEarliest(rest);
      var at := if low < hi then low else low + 1;
      assert rest[low] == times[at] && times[at] in times;
      SpanGrows(rest, low, top);
    }
  }

  predicate AllDrivenBy(s: Schedule, driverId: nat, ids: seq<nat>) {
    forall i :: 0 <= i < |ids| ==> ids[i] in s && s[ids[i]].driverId == driverId && s[ids[i]].pickup.At?
  }

  predicate AllDifferent(ids: seq<nat>) {
    forall i, j :: 0 <= i < j < |ids| ==> ids[i] != ids[j]
  }

  function PickupTimes(s: Schedule, driverId: nat, ids: seq<nat>): (times: seq<int>)
    requires AllDrivenBy(s, driverId, ids)
    ensures |times| == |ids| && forall i :: 0 <= i < |ids| ==> times[i] == s[ids[i]].pickup.ms
  {
    seq(|ids|, i requires 0 <= i < |ids| => s[ids[i]].pickup.ms)
  }

  lemma TwoJobsAreFar(s: Schedule, x: nat, y: nat)
    requires Spaced(s) && x in s && y in s && x != y && s[x].driverId == s[y].driverId
    ensures FarApart(s[x].pickup, s[y].pickup)
  {
  }

  lemma SpacedJobsAreFar(s: Schedule, driverId: nat, ids: seq<nat>)
    requires Spaced(s) && AllDrivenBy(s, driverId, ids) && AllDifferent(ids)
    ensures PairwiseFar(PickupTimes(s, driverId, ids))
  {
    var times := PickupTimes(s, driverId, ids);
    forall i, j | 0 <= i < j < |times| ensures Abs(times[i] - times[j]) > MIN_GAP_MS {
      TwoJobsAreFar(s, ids[i], ids[j]);
    }
  }

  lemma SpacedJobsSpanHours(s: Schedule, driverId: nat, ids: seq<nat>) returns (first: nat, last: nat)
    requires Spaced(s) && AllDrivenBy(s, driverId, ids) && AllDifferent(ids) && |ids| >= 2
    ensures first < |ids| && last < |ids|
    ensures s[ids[last]].pickup.ms - s[ids[first]].pickup.ms > (|ids| - 1) * MIN_GAP_MS
  {
    var times := PickupTimes(s, driverId, ids);
    SpacedJobsAreFar(s, driverId, ids);
    last, first := LatestAndEarliest(times);
    SpanGrows(times, first, last);
    MoreThanHours(times[last] - times[first], |ids| - 1);
  }

  lemma MoreThanHours(span: int, n: nat)
    requires n >= 1 && span >= n * (MIN_GAP_MS + 1)
    ensures span > n * MIN_GAP_MS
  {
  }

  /** In every run, among n jobs of one driver some two are more than n - 1 hours apart. */
  lemma JobsSpanHours(steps: seq<Step>, s: Schedule, driverId: nat, ids: seq<nat>)
    requires IsRun(map[], steps) && s == AfterAll(map[], steps)
    requires |ids| >= 2 && AllDifferent(ids)
    requires forall i :: 0 <= i < |ids| ==> ids[i] in s && s[ids[i]].driverId == driverId
    ensures AllDrivenBy(s, driverId, ids)
    ensures exists i, j :: 0 <= i < |ids| && 0 <= j < |ids|
                           && s[ids[j]].pickup.ms - s[ids[i]].pickup.ms > (|ids| - 1) * MIN_GAP_MS
  {
    RunsStaySpaced(steps);
    var first, last := SpacedJobsSpanHours(s, driverId, ids);
  }

  // ---------------------------------------------------------------- the list of open calls

  /** TIMESTAMPDIFF(SECOND, ...) drops the fraction, towards zero. */
  function WholeSeconds(ms: int): int {
    if ms >= 0 then ms / 1000 else -(-ms / 1000)
  }

  /** The NOT EXISTS clause of the listing, over the driver's own jobs. */
  predicate Listed(jobs: seq<Job>, target: Stamp) {
    forall job <- jobs :: job.pickup.At? && target.At?
                          && Abs(WholeSeconds(target.ms - job.pickup.ms)) > MIN_GAP_SECONDS
  }

  // Hidden by the listing, allowed by the check: the fraction of a second that TIMESTAMPDIFF drops.
  predicate InTheCrack(a: Stamp, b: Stamp) {
    a.At? && b.At? && MIN_GAP_MS < Abs(a.ms - b.ms) < MIN_GAP_MS + 1000
  }

  lemma SecondsAgainstMilliseconds(a: Stamp, b: Stamp)
    requires a.At? && b.At?
    ensures Abs(WholeSeconds(b.ms - a.ms)) > MIN_GAP_SECONDS <==> (FarApart(a, b) && !InTheCrack(a, b))
  {
    var d := Abs(b.ms - a.ms);
    assert Abs(WholeSeconds(b.ms - a.ms)) == d / 1000;
    assert d / 1000 > 3600 <==> d >= 3601000;
  }

  /**
   * A listed call with a pickup time always passes the check; and a call that passes is listed
   * exactly when no own job falls in the dropped fraction of a second.
   */
  lemma ListingAgreesExactly(jobs: seq<Job>, target: Stamp)
    requires target.At?
    ensures Listed(jobs, target)
       <==> (Passes(jobs, target, None) && forall job <- jobs :: !InTheCrack(job.pickup, target))
  {
    forall job | job in jobs && job.pickup.At?
      ensures Abs(WholeSeconds(target.ms - job.pickup.ms)) > MIN_GAP_SECONDS
         <==> (FarApart(job.pickup, target) && !InTheCrack(job.pickup, target))
    {
      SecondsAgainstMilliseconds(job.pickup, target);
    }
  }

  predicate WholeSecond(t: Stamp) {
    t.At? ==> t.ms % 1000 == 0
  }

  lemma WholeSecondsMissTheCrack(a: Stamp, b: Stamp)
    requires WholeSecond(a) && WholeSecond(b)
    ensures !InTheCrack(a, b)
  {
    if a.At? && b.At? {
      var x, y := a.ms / 1000, b.ms / 1000;
      assert a.ms == 1000 * x && b.ms == 1000 * y;
      assert a.ms - b.ms == 1000 * (x - y);
    }
  }

  /** Pickup columns hold whole seconds, and there the listing and the check are one and the same. */
  lemma StoredPickupsAgree(jobs: seq<Job>, target: Stamp)
    requires target.At? && WholeSecond(target) && forall job <- jobs :: WholeSecond(job.pickup)
    ensures Listed(jobs, target) <==> Passes(jobs, target, None)
  {
    ListingAgreesExactly(jobs, target);
    forall job | job in jobs ensures !InTheCrack(job.pickup, target) {
      WholeSecondsMissTheCrack(job.pickup, target);
    }
  }

  /** A call without a pickup time is listed exactly to drivers with no job, and never passes. */
  lemma NoPickupTimeListedExactly(jobs: seq<Job>, target: Stamp)
    requires !target.At?
    ensures (Listed(jobs, target) <==> jobs == []) && !Passes(jobs, target, None)
  {
    if jobs != [] { assert jobs[0] in jobs; }
  }
}
