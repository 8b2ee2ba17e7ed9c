/**
 * The fixed-window rate limiter with an optional penalty, over a table of buckets that is
 * purged on every request. Retry-After is section 10.2.3 of RFC 9110.
 */
module RateLimit {
  import opened Basics

  datatype Config = Config(windowMs: int, max: int, penaltyWindowMs: Option<int>)

  datatype Bucket = Bucket(count: int, resetAt: int, blockedUntil: Option<int>)

  datatype Decision = Admit | Reject(retryAfterSeconds: int)

  /** A request for a key at a clock reading (milliseconds). */
  datatype Request = Request(key: string, now: nat)

  // Clock readings are not negative, so a block that lies ahead is never the falsy 0.
  predicate Blocked(b: Bucket, now: nat) {
    b.blockedUntil.Some? && b.blockedUntil.value > now
  }

  predicate Dead(b: Bucket, now: nat) {
    !Blocked(b, now) && b.resetAt <= now
  }

  function Max(a: int, b: int): int {
    if a >= b then a else b
  }

  // Math.max(1, Math.ceil(ms / 1000))
  function RetrySeconds(ms: int): (s: int)
    ensures s >= 1 && 1000 * s >= ms
  {
    Max(1, (ms + 999) / 1000)
  }

  /** What one request does to its bucket. */
  function Touch(cfg: Config, bucket: Option<Bucket>, now: nat): (Bucket, Decision) {
    if bucket.Some? && Blocked(bucket.value, now) then
      (bucket.value, Reject(RetrySeconds(bucket.value.blockedUntil.value - now)))
    else if bucket.None? || bucket.value.resetAt <= now then
      (Bucket(1, now + cfg.windowMs, None), Admit)
    else
      var b := bucket.value.(count := bucket.value.count + 1);
      if b.count > cfg.max then
        (if cfg.penaltyWindowMs.Some? && cfg.penaltyWindowMs.value != 0
         then b.(blockedUntil := Some(now + cfg.penaltyWindowMs.value)) else b,
         Reject(RetrySeconds(cfg.penaltyWindowMs.GetOr(b.resetAt - now))))
      else (b, Admit)
  }

  /** When a request is rejected: its key is blocked, or its open window is full. */
  lemma RejectedExactly(cfg: Config, bucket: Option<Bucket>, now: nat)
    ensures Touch(cfg, bucket, now).1 != Admit
       <==> bucket.Some?
            && ((bucket.value.blockedUntil.Some? && bucket.value.blockedUntil.value > now)
                || (bucket.value.resetAt > now && bucket.value.count >= cfg.max))
  {
  }

  /** What a rejected key waits for: the end of its block, the penalty, or the end of its window. */
  function Wait(cfg: Config, b: Bucket, now: nat): int {
    if b.blockedUntil.Some? && b.blockedUntil.value > now then b.blockedUntil.value - now
    else if cfg.penaltyWindowMs.Some? then cfg.penaltyWindowMs.value
    else b.resetAt - now
  }

  /** Retry-After is the least whole number of seconds, at least one, that covers the wait. */
  lemma RetryAfterIsLeast(cfg: Config, bucket: Option<Bucket>, now: nat)
    requires Touch(cfg, bucket, now).1.Reject?
    ensures bucket.Some?
    ensures var s, wait := Touch(cfg, bucket, now).1.retryAfterSeconds, Wait(cfg, bucket.value, now);
            s >= 1 && 1000 * s >= wait && (s == 1 || 1000 * (s - 1) < wait)
  {
  }

  /** What a request writes: a new window, or one more count, and a block if a penalty is due. */
  lemma RequestWrites(cfg: Config, bucket: Option<Bucket>, now: nat)
    ensures var next := Touch(cfg, bucket, now).0;
            if bucket.Some? && bucket.value.blockedUntil.Some? && bucket.value.blockedUntil.value > now
            then next == bucket.value
            else if bucket.None? || bucket.value.resetAt <= now then next == Bucket(1, now + cfg.windowMs, None)
            else
              next.count == bucket.value.count + 1 && next.resetAt == bucket.value.resetAt
              && var penalty := cfg.penaltyWindowMs.GetOr(0);
                 next.blockedUntil == if next.count > cfg.max && penalty != 0 then Some(now + penalty)
                                      else bucket.value.blockedUntil
  {
  }

  type Buckets = map<string, Bucket>

  function Lookup(m: Buckets, key: string): Option<Bucket> {
    if key in m then Some(m[key]) else None
  }

  function Purge(m: Buckets, now: nat): Buckets {
    map k | k in m && !Dead(m[k], now) :: m[k]
  }

  /** Serve a request without purging: the specification. */
  function Serve(cfg: Config, m: Buckets, r: Request): (Buckets, Decision) {
    var (b, d) := Touch(cfg, Lookup(m, r.key), r.now);
    (m[r.key := b], d)
  }

  class RateLimiter {
    const cfg: Config
    var buckets: Buckets

    constructor (cfg: Config)
      ensures this.cfg == cfg && buckets == map[]
    {
      this.cfg := cfg;
      buckets := map[];
    }

    /** purgeExpiredBuckets: visit every bucket and drop the dead ones. */
    method PurgeExpiredBuckets(now: nat)
      modifies this`buckets
      ensures buckets == Purge(old(buckets), now)
    {
      ghost var before := buckets;
      var pending := buckets.Keys;
      while pending != {}
        invariant pending <= before.Keys
        invariant buckets == map k | k in before && (k in pending || !Dead(before[k], now)) :: before[k]
        decreases pending
      {
        var key :| key in pending;
        if !Blocked(buckets[key], now) && buckets[key].resetAt <= now {
          buckets := buckets - {key};
        }
        pending := pending - {key};
      }
    }

    /** The middleware: purge, then decide one request. */
    method Handle(key: string, now: nat) returns (d: Decision)
      modifies this`buckets
      ensures (buckets, d) == Serve(cfg, Purge(old(buckets), now), Request(key, now))
    {
      PurgeExpiredBuckets(now);
      ghost var purged := buckets;
      if key in buckets && Blocked(buckets[key], now) {
        d := Reject(RetrySeconds(buckets[key].blockedUntil.value - now));
        assert buckets == buckets[key := buckets[key]];
        return;
      }
      if key !in buckets || buckets[key].resetAt <= now {
        buckets := buckets[key := Bucket(1, now + cfg.windowMs, None)];
        return Admit;
      }
      buckets := buckets[key := buckets[key].(count := buckets[key].count + 1)];
      if buckets[key].count > cfg.max {
        if cfg.penaltyWindowMs.Some? && cfg.penaltyWindowMs.value != 0 {
          buckets := buckets[key := buckets[key].(blockedUntil := Some(now + cfg.penaltyWindowMs.value))];
        }
        assert buckets == purged[key := buckets[key]];
        return Reject(RetrySeconds(cfg.penaltyWindowMs.GetOr(buckets[key].resetAt - now)));
      }
      d := Admit;
    }
  }

  // ---------------------------------------------------------------- traces

  predicate Clocked(trace: seq<Request>, from: nat) {
    (trace != [] ==> from <= trace[0].now)
    && forall i, j :: 0 <= i < j < |trace| ==> trace[i].now <= trace[j].now
  }

  /** The decisions of the limiter as written. */
  function PurgingRun(cfg: Config, m: Buckets, trace: seq<Request>): seq<Decision>
    decreases |trace|
  {
    if trace == [] then []
    else
      var (next, d) := Serve(cfg, Purge(m, trace[0].now), trace[0]);
      [d] + PurgingRun(cfg, next, trace[1..])
  }

  /** The decisions of a limiter that never forgets a bucket. */
  function KeepingRun(cfg: Config, m: Buckets, trace: seq<Request>): seq<Decision>
    decreases |trace|
  {
    if trace == [] then []
    else
      var (next, d) := Serve(cfg, m, trace[0]);
      [d] + KeepingRun(cfg, next, trace[1..])
  }

  // `p` is `m` without some buckets that are dead by time `now`.
  ghost predicate PurgedFrom(p: Buckets, m: Buckets, now: nat) {
    (forall k :: k in p ==> k in m && m[k] == p[k])
    && (forall k :: k in m && k !in p ==> Dead(m[k], now))
  }

  // A dead bucket and no bucket are served alike.
  lemma DeadIsAbsent(cfg: Config, b: Bucket, now: nat)
    requires Dead(b, now)
    ensures Touch(cfg, Some(b), now) == Touch(cfg, None, now)
  {
  }

  lemma PurgeStep(cfg: Config, p: Buckets, m: Buckets, since: nat, r: Request)
    requires PurgedFrom(p, m, since) && since <= r.now
    ensures var (p', d) := Serve(cfg, Purge(p, r.now), r);
            var (m', e) := Serve(cfg, m, r);
            d == e && PurgedFrom(p', m', r.now)
  {
    if r.key in m && Dead(m[r.key], r.now) { DeadIsAbsent(cfg, m[r.key], r.now); }
  }

  lemma {:induction false} PurgeStaysInvisible(cfg: Config, p: Buckets, m: Buckets, since: nat, trace: seq<Request>)
    requires PurgedFrom(p, m, since) && Clocked(trace, since)
    ensures PurgingRun(cfg, p, trace) == KeepingRun(cfg, m, trace)
    decreases |trace|
  {
    if trace != [] {
      var r := trace[0];
      PurgeStep(cfg, p, m, since, r);
      PurgeStaysInvisible(cfg, Serve(cfg, Purge(p, r.now), r).0, Serve(cfg, m, r).0, r.now, trace[1..]);
    }
  }

  /** Purging is invisible: every decision and every Retry-After is that of a limiter that forgets nothing. */
  lemma PurgingIsInvisible(cfg: Config, trace: seq<Request>)
    requires Clocked(trace, 0)
    ensures PurgingRun(cfg, map[], trace) == KeepingRun(cfg, map[], trace)
  {
    PurgeStaysInvisible(cfg, map[], map[], 0, trace);
  }

  // ---------------------------------------------------------------- the sliding bound

  /** Requests of `key` admitted at or after `from` and before `from + windowMs`. */
  function AdmittedWithin(cfg: Config, trace: seq<Request>, decisions: seq<Decision>, key: string, from: int): nat
    requires |decisions| == |trace|
  {
    if trace == [] then 0
    else (if trace[0].key == key && decisions[0] == Admit && from <= trace[0].now < from + cfg.windowMs then 1 else 0)
         + AdmittedWithin(cfg, trace[1..], decisions[1..], key, from)
  }

  lemma {:induction false} RunLengths(cfg: Config, m: Buckets, trace: seq<Request>)
    ensures |KeepingRun(cfg, m, trace)| == |trace| && |PurgingRun(cfg, m, trace)| == |trace|
    decreases |trace|
  {
    if trace != [] {
      RunLengths(cfg, Serve(cfg, m, trace[0]).0, trace[1..]);
      RunLengths(cfg, Serve(cfg, Purge(m, trace[0].now), trace[0]).0, trace[1..]);
    }
  }

  // How many more requests of a key with this bucket the interval can still admit from `now` on.
  function Room(cfg: Config, bucket: Option<Bucket>, now: int, from: int): int {
    var m := Max(1, cfg.max);
    if now >= from + cfg.windowMs then 0
    else if bucket.Some? && bucket.value.resetAt > now then
      if bucket.value.resetAt > from
      then Max(0, m - bucket.value.count) + (if bucket.value.resetAt < from + cfg.windowMs then m else 0)
      else 2 * m
    else if now >= from then m
    else 2 * m
  }

  lemma RoomShrinks(cfg: Config, bucket: Option<Bucket>, now: int, later: int, from: int)
    requires now <= later
    ensures 0 <= Room(cfg, bucket, later, from) <= Room(cfg, bucket, now, from)
    ensures bucket == None ==> Room(cfg, bucket, now, from) <= 2 * Max(1, cfg.max)
  {
  }

  lemma RoomPaysForAdmission(cfg: Config, bucket: Option<Bucket>, now: nat, from: int)
    requires cfg.windowMs > 0
    ensures var (b, d) := Touch(cfg, bucket, now);
            Room(cfg, Some(b), now, from) + (if d == Admit && from <= now < from + cfg.windowMs then 1 else 0)
            <= Room(cfg, bucket, now, from)
  {
  }

  lemma {:induction false} AdmissionsFitRoom(cfg: Config, m: Buckets, trace: seq<Request>, key: string, now: nat,
                                             from: int)
    requires cfg.windowMs > 0 && Clocked(trace, now)
    ensures |KeepingRun(cfg, m, trace)| == |trace|
    ensures AdmittedWithin(cfg, trace, KeepingRun(cfg, m, trace), key, from) <= Room(cfg, Lookup(m, key), now, from)
    decreases |trace|
  {
    RunLengths(cfg, m, trace);
    if trace == [] {
      RoomShrinks(cfg, Lookup(m, key), now, now, from);
    } else {
      var r := trace[0];
      var next := Serve(cfg, m, r).0;
      AdmissionsFitRoom(cfg, next, trace[1..], key, r.now, from);
      RoomShrinks(cfg, Lookup(m, key), now, r.now, from);
      RoomPaysForAdmission(cfg, Lookup(m, r.key), r.now, from);
      assert KeepingRun(cfg, m, trace)[1..] == KeepingRun(cfg, next, trace[1..]);
    }
  }

  lemma {:induction false} EmptyWindowAdmitsNone(cfg: Config, trace: seq<Request>, decisions: seq<Decision>,
                                                 key: string, from: int)
    requires cfg.windowMs <= 0 && |decisions| == |trace|
    ensures AdmittedWithin(cfg, trace, decisions, key, from) == 0
  {
    if trace != [] { EmptyWindowAdmitsNone(cfg, trace[1..], decisions[1..], key, from); }
  }

  /**
   * The sliding bound of a fixed window: over any half-open interval as long as the window, any
   * key is admitted at most 2 * max(1, max) times, with or without a penalty.
   */
  lemma SlidingBound(cfg: Config, trace: seq<Request>, key: string, from: int)
    requires Clocked(trace, 0)
    ensures var decisions := PurgingRun(cfg, map[], trace);
            |decisions| == |trace| && AdmittedWithin(cfg, trace, decisions, key, from) <= 2 * Max(1, cfg.max)
  {
    RunLengths(cfg, map[], trace);
    PurgingIsInvisible(cfg, trace);
    if cfg.windowMs > 0 {
      AdmissionsFitRoom(cfg, map[], trace, key, 0, from);
      RoomShrinks(cfg, None, 0, 0, from);
    } else {
      EmptyWindowAdmitsNone(cfg, trace, PurgingRun(cfg, map[], trace), key, from);
    }
  }

  // ---------------------------------------------------------------- Retry-After

  /** A key's bucket after its own requests at these times. */
  function KeyState(cfg: Config, times: seq<nat>): Option<Bucket> {
    if times == [] then None
    else Some(Touch(cfg, KeyState(cfg, times[..|times| - 1]), times[|times| - 1]).0)
  }

  function TableFrom(cfg: Config, m: Buckets, trace: seq<Request>): Buckets
    decreases |trace|
  {
    if trace == [] then m else Serve(cfg, TableFrom(cfg, m, trace[..|trace| - 1]), trace[|trace| - 1]).0
  }

  function Table(cfg: Config, trace: seq<Request>): Buckets {
    TableFrom(cfg, map[], trace)
  }

  function TimesOf(trace: seq<Request>, key: string): seq<nat> {
    if trace == [] then []
    else
      var last := trace[|trace| - 1];
      TimesOf(trace[..|trace| - 1], key) + if last.key == key then [last.now] else []
  }

  /** Keys do not disturb each other: a key's bucket depends on its own requests only. */
  lemma {:induction false} KeysAreIndependent(cfg: Config, trace: seq<Request>, key: string)
    ensures Lookup(Table(cfg, trace), key) == KeyState(cfg, TimesOf(trace, key))
  {
    if trace != [] {
      var init, last := trace[..|trace| - 1], trace[|trace| - 1];
      KeysAreIndependent(cfg, init, key);
      if last.key == key {
        var times := TimesOf(trace, key);
        assert times == TimesOf(init, key) + [last.now];
        assert times[..|times| - 1] == TimesOf(init, key) && times[|times| - 1] == last.now;
      } else {
        assert TimesOf(trace, key) == TimesOf(init, key);
      }
    }
  }

  predicate Ascending(times: seq<nat>) {
    forall i, j :: 0 <= i < j < |times| ==> times[i] <= times[j]
  }

  lemma {:induction false} TableFromHead(cfg: Config, m: Buckets, trace: seq<Request>)
    requires trace != []
    ensures TableFrom(cfg, m, trace) == TableFrom(cfg, Serve(cfg, m, trace[0]).0, trace[1..])
    decreases |trace|
  {
    var n := |trace| - 1;
    if n > 0 {
      TableFromHead(cfg, m, trace[..n]);
      assert trace[..n][1..] == trace[1..][..n - 1];
    } else {
      assert TableFrom(cfg, m, trace[..n]) == m;
    }
  }

  lemma {:induction false} DecisionFrom(cfg: Config, m: Buckets, trace: seq<Request>, i: nat)
    requires i < |trace|
    ensures |KeepingRun(cfg, m, trace)| == |trace|
    ensures KeepingRun(cfg, m, trace)[i] == Serve(cfg, TableFrom(cfg, m, trace[..i]), trace[i]).1
    decreases |trace|
  {
    RunLengths(cfg, m, trace);
    if i > 0 {
      DecisionFrom(cfg, Serve(cfg, m, trace[0]).0, trace[1..], i - 1);
      TableFromHead(cfg, m, trace[..i]);
      assert trace[..i][1..] == trace[1..][..i - 1];
    }
  }

  /** The decision of the limiter as written, on request `i` of a trace, from the earlier requests of its key alone. */
  lemma DecisionsAreLocal(cfg: Config, trace: seq<Request>, i: nat)
    requires Clocked(trace, 0) && i < |trace|
    ensures |PurgingRun(cfg, map[], trace)| == |trace|
    ensures PurgingRun(cfg, map[], trace)[i]
         == Touch(cfg, KeyState(cfg, TimesOf(trace[..i], trace[i].key)), trace[i].now).1
  {
    PurgingIsInvisible(cfg, trace);
    DecisionFrom(cfg, map[], trace, i);
    KeysAreIndependent(cfg, trace[..i], trace[i].key);
  }

  // The key's request at `times[j]` finds no bucket, or a dead one, and opens a window.
  predicate Opens(cfg: Config, times: seq<nat>, j: nat)
    requires j < |times|
  {
    var b := KeyState(cfg, times[..j]);
    b.None? || Dead(b.value, times[j])
  }

  // A key's bucket while the window opened at `times[j]` is open.
  ghost predicate WindowOf(cfg: Config, times: seq<nat>, j: nat, b: Bucket)
    requires j < |times|
  {
    b.resetAt == times[j] + cfg.windowMs
    && if |times| - j <= Max(1, cfg.max) then b.count == |times| - j && b.blockedUntil.None?
       else b.count > Max(1, cfg.max)
  }

  lemma {:induction false} WindowFills(cfg: Config, times: seq<nat>, j: nat)
    requires j < |times| && Ascending(times) && Opens(cfg, times, j) && times[|times| - 1] < times[j] + cfg.windowMs
    ensures WindowOf(cfg, times, j, KeyState(cfg, times).value)
    decreases |times|
  {
    var init := times[..|times| - 1];
    if j < |init| {
      assert init[|init| - 1] <= times[|times| - 1] && init[j] == times[j] && init[..j] == times[..j];
      WindowFills(cfg, init, j);
    } else {
      assert times[..j] == init;
    }
  }

  lemma KeyWindowAdmitsExactly(cfg: Config, times: seq<nat>, j: nat)
    requires j < |times| && Ascending(times) && Opens(cfg, times, j) && times[|times| - 1] < times[j] + cfg.windowMs
    ensures Touch(cfg, KeyState(cfg, times[..|times| - 1]), times[|times| - 1]).1 == Admit
       <==> |times| - j <= Max(1, cfg.max)
  {
    var init := times[..|times| - 1];
    if j < |init| {
      assert init[|init| - 1] <= times[|times| - 1] && init[j] == times[j] && init[..j] == times[..j];
      WindowFills(cfg, init, j);
    } else {
      assert times[..j] == init;
    }
  }

  lemma AscendingAppend(times: seq<nat>, t: nat)
    requires Ascending(times) && forall x <- times :: x <= t
    ensures Ascending(times + [t])
  {
    assert forall i :: 0 <= i < |times| ==> times[i] in times;
  }

  lemma {:induction false} TimesAscend(trace: seq<Request>, key: string)
    requires Clocked(trace, 0)
    ensures Ascending(TimesOf(trace, key))
    ensures forall t <- TimesOf(trace, key) :: trace != [] && t <= trace[|trace| - 1].now
  {
    if trace != [] {
      var init := trace[..|trace| - 1];
      assert forall i :: 0 <= i < |init| ==> init[i] == trace[i];
      TimesAscend(init, key);
      AscendingAppend(TimesOf(init, key), trace[|trace| - 1].now);
    }
  }

  /** The times of the key's requests up to and including request `i`. */
  function TimesUpTo(trace: seq<Request>, i: nat): (times: seq<nat>)
    requires i < |trace|
    ensures times != [] && times[|times| - 1] == trace[i].now
  {
    TimesOf(trace[..i], trace[i].key) + [trace[i].now]
  }

  /**
   * On every trace, whatever other keys do in between: while the window opened by the key's request
   * `j` is open, its requests are admitted up to the limit, and not one more, penalty or not.
   */
  lemma WindowAdmitsExactly(cfg: Config, trace: seq<Request>, i: nat, j: nat)
    requires Clocked(trace, 0) && i < |trace| && j < |TimesUpTo(trace, i)|
    requires Opens(cfg, TimesUpTo(trace, i), j) && trace[i].now < TimesUpTo(trace, i)[j] + cfg.windowMs
    ensures |PurgingRun(cfg, map[], trace)| == |trace|
    ensures PurgingRun(cfg, map[], trace)[i] == Admit <==> |TimesUpTo(trace, i)| - j <= Max(1, cfg.max)
  {
    var times := TimesUpTo(trace, i);
    UpToAscends(trace, i);
    assert times[..|times| - 1] == TimesOf(trace[..i], trace[i].key);
    KeyWindowAdmitsExactly(cfg, times, j);
    DecisionsAreLocal(cfg, trace, i);
  }

  lemma UpToAscends(trace: seq<Request>, i: nat)
    requires Clocked(trace, 0) && i < |trace|
    ensures Ascending(TimesUpTo(trace, i))
  {
    var earlier := trace[..i];
    assert forall k :: 0 <= k < i ==> earlier[k] == trace[k];
    TimesAscend(earlier, trace[i].key);
    AscendingAppend(TimesOf(earlier, trace[i].key), trace[i].now);
  }

  // ---------------------------------------------------------------- the promise of Retry-After

  /** Request `later` is the next request of request `i`'s key. */
  predicate NextOfKey(trace: seq<Request>, i: nat, later: nat) {
    i < later < |trace| && trace[later].key == trace[i].key
    && forall k :: i < k < later ==> trace[k].key != trace[i].key
  }

  /** On this trace, whoever was rejected and waited the advertised seconds is admitted on the next request. */
  ghost predicate HonoursRetryAfter(cfg: Config, trace: seq<Request>) {
    |PurgingRun(cfg, map[], trace)| == |trace|
    && forall i: nat, later: nat | NextOfKey(trace, i, later) ::
         Honoured(trace, PurgingRun(cfg, map[], trace), i, later)
  }

  predicate Honoured(trace: seq<Request>, decisions: seq<Decision>, i: nat, later: nat)
    requires |decisions| == |trace| && i < |trace| && later < |trace|
  {
    decisions[i].Reject? && trace[later].now >= trace[i].now + 1000 * decisions[i].retryAfterSeconds
    ==> decisions[later] == Admit
  }

  ghost predicate RetryAfterTruthful(cfg: Config) {
    forall trace :: Clocked(trace, 0) ==> HonoursRetryAfter(cfg, trace)
  }

  predicate KeepsPromise(cfg: Config, times: seq<nat>, later: nat)
    requires times != []
  {
    var now := times[|times| - 1];
    var answer := Touch(cfg, KeyState(cfg, times[..|times| - 1]), now).1;
    answer.Reject? && later >= now + 1000 * answer.retryAfterSeconds ==>
      Touch(cfg, KeyState(cfg, times), later).1 == Admit
  }

  /** The configurations that keep the promise: no penalty, or one that outlasts the window. */
  predicate PenaltyOutlastsWindow(cfg: Config) {
    cfg.penaltyWindowMs.Some? ==> Max(1000, cfg.penaltyWindowMs.value) >= cfg.windowMs
  }

  // A bucket's window began by `now`, and a block was set while that window was open.
  ghost predicate Timely(cfg: Config, bucket: Option<Bucket>, now: nat) {
    bucket.Some? ==>
      var b := bucket.value;
      b.resetAt <= now + cfg.windowMs
      && (b.blockedUntil.Some? ==>
            cfg.penaltyWindowMs.Some?
            && var setAt := b.blockedUntil.value - cfg.penaltyWindowMs.value;
               setAt <= now && b.resetAt <= setAt + cfg.windowMs)
  }

  lemma {:induction false} KeyStateTimely(cfg: Config, times: seq<nat>)
    requires times != [] && Ascending(times)
    ensures Timely(cfg, KeyState(cfg, times[..|times| - 1]), times[|times| - 1])
    ensures Timely(cfg, KeyState(cfg, times), times[|times| - 1])
  {
    var init := times[..|times| - 1];
    if init != [] {
      KeyStateTimely(cfg, init);
      assert init[|init| - 1] <= times[|times| - 1];
    }
  }

  lemma SilenceIsRewarded(cfg: Config, times: seq<nat>, later: nat)
    requires PenaltyOutlastsWindow(cfg) && times != [] && Ascending(times)
    ensures KeepsPromise(cfg, times, later)
  {
    KeyStateTimely(cfg, times);
  }

  function Zeros(n: nat): (z: seq<nat>)
    ensures |z| == n && forall i :: 0 <= i < n ==> z[i] == 0
  {
    seq(n, i => 0)
  }

  lemma {:induction false} BurstFillsWindow(cfg: Config, n: nat)
    requires cfg.windowMs > 0 && 1 <= n <= Max(1, cfg.max)
    ensures KeyState(cfg, Zeros(n)) == Some(Bucket(n, cfg.windowMs, None))
  {
    assert Zeros(n)[..n - 1] == Zeros(n - 1);
    if n > 1 {
      BurstFillsWindow(cfg, n - 1);
    } else {
      assert KeyState(cfg, Zeros(0)) == None;
    }
  }

  // A penalty shorter than the window: one burst, one try at the right moment, and the promise is broken.
  function BrokenPromise(cfg: Config): seq<nat>
    requires cfg.penaltyWindowMs.Some?
  {
    var burst := Zeros(Max(1, cfg.max) + 1);
    if cfg.penaltyWindowMs.value > 1000 then burst + [cfg.penaltyWindowMs.value - 1000] else burst
  }

  lemma ShortPenaltyBreaksPromise(cfg: Config)
    requires !PenaltyOutlastsWindow(cfg)
    ensures var times := BrokenPromise(cfg);
            times != [] && Ascending(times) && !KeepsPromise(cfg, times, times[|times| - 1] + 1000)
  {
    var p := cfg.penaltyWindowMs.value;
    var n := Max(1, cfg.max);
    var burst := Zeros(n + 1);
    BurstFillsWindow(cfg, n);
    assert burst[..n] == Zeros(n);
    var full := Bucket(n + 1, cfg.windowMs, if p != 0 then Some(p) else None);
    assert KeyState(cfg, burst) == Some(full);
    if p > 1000 {
      var times := BrokenPromise(cfg);
      assert times[..|times| - 1] == burst;
      assert Touch(cfg, Some(full), p - 1000) == (full, Reject(1));
      assert KeyState(cfg, times) == Some(full);
    }
  }

  lemma {:induction false} SilenceAddsNoTimes(trace: seq<Request>, i: nat, later: nat)
    requires i < later <= |trace| && forall k :: i < k < later ==> trace[k].key != trace[i].key
    ensures TimesOf(trace[..later], trace[i].key) == TimesUpTo(trace, i)
    decreases later
  {
    assert trace[..later][..later - 1] == trace[..later - 1] && trace[..later][later - 1] == trace[later - 1];
    if later > i + 1 { SilenceAddsNoTimes(trace, i, later - 1); }
  }

  lemma TraceHonours(cfg: Config, trace: seq<Request>, i: nat, later: nat)
    requires Clocked(trace, 0) && NextOfKey(trace, i, later)
    ensures |PurgingRun(cfg, map[], trace)| == |trace|
    ensures KeepsPromise(cfg, TimesUpTo(trace, i), trace[later].now)
       <==> Honoured(trace, PurgingRun(cfg, map[], trace), i, later)
  {
    var times := TimesUpTo(trace, i);
    assert times[..|times| - 1] == TimesOf(trace[..i], trace[i].key);
    DecisionsAreLocal(cfg, trace, i);
    DecisionsAreLocal(cfg, trace, later);
    SilenceAddsNoTimes(trace, i, later);
  }

  // Whoever comes back a second or more before the advertised time is rejected again.
  lemma EarlyIsRejected(cfg: Config, bucket: Option<Bucket>, now: nat, later: nat)
    requires var d := Touch(cfg, bucket, now).1;
             d.Reject? && d.retryAfterSeconds > 1 && now <= later <= now + 1000 * (d.retryAfterSeconds - 1)
    ensures Touch(cfg, Some(Touch(cfg, bucket, now).0), later).1.Reject?
  {
    RetryAfterIsLeast(cfg, bucket, now);
    RequestWrites(cfg, bucket, now);
    RejectedExactly(cfg, bucket, now);
    RejectedExactly(cfg, Some(Touch(cfg, bucket, now).0), later);
  }

  /**
   * Retry-After advertises no second too many: on every trace and for every configuration, a rejected
   * key whose next request comes a second or more before the advertised time is rejected again.
   */
  lemma RetryAfterIsNeeded(cfg: Config, trace: seq<Request>, i: nat, later: nat)
    requires Clocked(trace, 0) && NextOfKey(trace, i, later)
    ensures |PurgingRun(cfg, map[], trace)| == |trace|
    ensures var decisions := PurgingRun(cfg, map[], trace);
            decisions[i].Reject? && decisions[i].retryAfterSeconds > 1
            && trace[later].now <= trace[i].now + 1000 * (decisions[i].retryAfterSeconds - 1) ==>
              decisions[later].Reject?
  {
    var times := TimesUpTo(trace, i);
    assert times[..|times| - 1] == TimesOf(trace[..i], trace[i].key);
    DecisionsAreLocal(cfg, trace, i);
    DecisionsAreLocal(cfg, trace, later);
    SilenceAddsNoTimes(trace, i, later);
    var before := KeyState(cfg, times[..|times| - 1]);
    var d := Touch(cfg, before, trace[i].now).1;
    if d.Reject? && d.retryAfterSeconds > 1 && trace[later].now <= trace[i].now + 1000 * (d.retryAfterSeconds - 1) {
      assert trace[i].now <= trace[later].now;
      EarlyIsRejected(cfg, before, trace[i].now, trace[later].now);
    }
  }

  // One key's requests, alone on a trace.
  function Alone(times: seq<nat>): (trace: seq<Request>)
    ensures |trace| == |times| && forall i :: 0 <= i < |times| ==> trace[i] == Request("", times[i])
  {
    seq(|times|, i requires 0 <= i < |times| => Request("", times[i]))
  }

  lemma {:induction false} TimesAlone(times: seq<nat>)
    ensures TimesOf(Alone(times), "") == times
  {
    if times != [] {
      var init := times[..|times| - 1];
      TimesAlone(init);
      assert Alone(times)[..|times| - 1] == Alone(init);
      assert times == init + [times[|times| - 1]];
    }
  }

  lemma BrokenOnTrace(cfg: Config, times: seq<nat>, later: nat)
    requires times != [] && Ascending(times) && later >= times[|times| - 1] && !KeepsPromise(cfg, times, later)
    ensures Clocked(Alone(times + [later]), 0) && !HonoursRetryAfter(cfg, Alone(times + [later]))
  {
    var trace, n := Alone(times + [later]), |times|;
    assert trace[..n - 1] == Alone(times[..n - 1]);
    TimesAlone(times[..n - 1]);
    assert TimesUpTo(trace, n - 1) == times;
    assert NextOfKey(trace, n - 1, n);
    TraceHonours(cfg, trace, n - 1, n);
  }

  /**
   * Retry-After is truthful, on every interleaved trace, exactly for the configurations whose
   * penalty, if any, outlasts the window.
   */
  lemma RetryAfterTruthfulExactly(cfg: Config)
    ensures RetryAfterTruthful(cfg) <==> PenaltyOutlastsWindow(cfg)
  {
    if PenaltyOutlastsWindow(cfg) {
      forall trace: seq<Request> | Clocked(trace, 0) ensures HonoursRetryAfter(cfg, trace) {
        RunLengths(cfg, map[], trace);
        forall i: nat, later: nat | NextOfKey(trace, i, later)
          ensures Honoured(trace, PurgingRun(cfg, map[], trace), i, later)
        {
          UpToAscends(trace, i);
          SilenceIsRewarded(cfg, TimesUpTo(trace, i), trace[later].now);
          TraceHonours(cfg, trace, i, later);
        }
      }
    } else {
      ShortPenaltyBreaksPromise(cfg);
      var times := BrokenPromise(cfg);
      BrokenOnTrace(cfg, times, times[|times| - 1] + 1000);
    }
  }
}
