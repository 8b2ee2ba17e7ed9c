/**
 * Driver password-reset codes: a new code retires the older ones, a code works once, and it stops
 * working after too many wrong tries.
 */
module PasswordReset {
  import opened Basics

  /** A row of driver_password_reset_codes; its id is its position in the table. */
  datatype Code = Code(userId: nat, codeHash: string, expiresAt: int, used: bool, failedAttempts: nat)

  datatype User = User(isDriver: bool, isActive: bool, isDeleted: bool, passwordHash: string, tokenVersion: nat)

  /** One try that reached a code: it was accepted, or it was counted against the code. */
  datatype Attempt = Attempt(code: nat, accepted: bool)

  datatype Db = Db(codes: seq<Code>, users: map<nat, User>, log: seq<Attempt>)

  // ---------------------------------------------------------------- steps

  datatype Step =
    | CreateCode(userId: nat, codeHash: string, expiresAt: int)
    | Consume(userId: nat, codeHash: string, passwordHash: string, now: int)
    | ChangeUser(userId: nat, user: User)

  function Retired(codes: seq<Code>, userId: nat): (out: seq<Code>)
    ensures |out| == |codes|
  {
    seq(|codes|, i requires 0 <= i < |codes| => if codes[i].userId == userId then codes[i].(used := true) else codes[i])
  }

  /** ORDER BY id DESC LIMIT 1 among the user's unused codes. */
  function LatestUnused(codes: seq<Code>, userId: nat): (at: Option<nat>)
    ensures at.Some? ==> at.value < |codes| && codes[at.value].userId == userId && !codes[at.value].used
  {
    if codes == [] then None
    else if codes[|codes| - 1].userId == userId && !codes[|codes| - 1].used then Some(|codes| - 1)
    else LatestUnused(codes[..|codes| - 1], userId)
  }

  predicate Accepts(code: Code, codeHash: string, now: int, maxAttempts: nat) {
    code.failedAttempts < maxAttempts && now < code.expiresAt && code.codeHash == codeHash
  }

  predicate ActiveDriver(users: map<nat, User>, userId: nat) {
    userId in users && users[userId].isDriver && users[userId].isActive && !users[userId].isDeleted
  }

  /** The UPDATE of users writes only an active, undeleted driver. */
  function WithPassword(users: map<nat, User>, userId: nat, passwordHash: string): map<nat, User> {
    if ActiveDriver(users, userId)
    then users[userId := users[userId].(passwordHash := passwordHash, tokenVersion := users[userId].tokenVersion + 1)]
    else users
  }

  function AfterConsume(db: Db, userId: nat, codeHash: string, passwordHash: string, now: int, maxAttempts: nat): Db {
    var at := LatestUnused(db.codes, userId);
    if at.None? then db
    else
      var i := at.value;
      var code := db.codes[i];
      if Accepts(code, codeHash, now, maxAttempts) then
        Db(db.codes[i := code.(used := true)], WithPassword(db.users, userId, passwordHash),
           db.log + [Attempt(i, true)])
      else if code.failedAttempts < maxAttempts then
        db.(codes := db.codes[i := code.(failedAttempts := code.failedAttempts + 1)],
            log := db.log + [Attempt(i, false)])
      else db
  }

  function After(db: Db, step: Step, maxAttempts: nat): Db {
    match step
    case CreateCode(userId, codeHash, expiresAt) =>
      db.(codes := Retired(db.codes, userId) + [Code(userId, codeHash, expiresAt, false, 0)])
    case Consume(userId, codeHash, passwordHash, now) =>
      AfterConsume(db, userId, codeHash, passwordHash, now, maxAttempts)
    case ChangeUser(userId, user) => db.(users := db.users[userId := user])
  }

  function AfterAll(db: Db, steps: seq<Step>, maxAttempts: nat): Db
    decreases |steps|
  {
    if steps == [] then db else After(AfterAll(db, steps[..|steps| - 1], maxAttempts), steps[|steps| - 1], maxAttempts)
  }

  const EMPTY := Db([], map[], [])

  // ---------------------------------------------------------------- what every run keeps

  function Failures(log: seq<Attempt>, code: nat): nat {
    if log == [] then 0
    else Failures(log[..|log| - 1], code) + if log[|log| - 1] == Attempt(code, false) then 1 else 0
  }

  // Of the codes of one user, only the newest can be unused.
  ghost predicate OnlyNewestUnused(codes: seq<Code>) {
    forall i, j :: 0 <= i < j < |codes| && codes[i].userId == codes[j].userId ==> codes[i].used
  }

  ghost predicate Counted(db: Db, maxAttempts: nat) {
    forall i: nat :: i < |db.codes| ==> Failures(db.log, i) == db.codes[i].failedAttempts <= maxAttempts
  }

  // Whatever the log says of a code happened while the code was unused and below the limit.
  ghost predicate Lawful(db: Db, maxAttempts: nat) {
    forall k :: 0 <= k < |db.log| ==>
      db.log[k].code < |db.codes|
      && Failures(db.log[..k], db.log[k].code) < maxAttempts
      && (db.log[k].accepted ==> db.codes[db.log[k].code].used && Silent(db.log, k))
  }

  // No later attempt reaches the code of attempt k.
  ghost predicate Silent(log: seq<Attempt>, k: nat)
    requires k < |log|
  {
    forall m :: k < m < |log| ==> log[m].code != log[k].code
  }

  ghost predicate Inv(db: Db, maxAttempts: nat) {
    OnlyNewestUnused(db.codes) && Counted(db, maxAttempts) && Lawful(db, maxAttempts)
  }

  lemma {:induction false} NeverLogged(log: seq<Attempt>, code: nat)
    requires forall k :: 0 <= k < |log| ==> log[k].code != code
    ensures Failures(log, code) == 0
  {
    if log != [] { NeverLogged(log[..|log| - 1], code); }
  }

  lemma CreateKeepsInv(db: Db, userId: nat, codeHash: string, expiresAt: int, maxAttempts: nat)
    requires Inv(db, maxAttempts)
    ensures Inv(After(db, CreateCode(userId, codeHash, expiresAt), maxAttempts), maxAttempts)
  {
    NeverLogged(db.log, |db.codes|);
  }

  // One more attempt, on an unused code that is still below the limit.
  lemma AttemptKeepsLawful(db: Db, next: Db, attempt: Attempt, maxAttempts: nat)
    requires Inv(db, maxAttempts) && attempt.code < |db.codes| && !db.codes[attempt.code].used
    requires db.codes[attempt.code].failedAttempts < maxAttempts && next.log == db.log + [attempt]
    requires |next.codes| == |db.codes| && (attempt.accepted ==> next.codes[attempt.code].used)
    requires forall i :: 0 <= i < |db.codes| && db.codes[i].used ==> next.codes[i].used
    ensures Lawful(next, maxAttempts)
  {
    forall k | 0 <= k < |next.log|
      ensures next.log[k].code < |next.codes| && Failures(next.log[..k], next.log[k].code) < maxAttempts
              && (next.log[k].accepted ==> next.codes[next.log[k].code].used && Silent(next.log, k))
    {
      assert next.log[..k] == db.log[..k];
      if k == |db.log| {
        assert db.log[..k] == db.log;
      } else {
        assert next.log[k] == db.log[k];
      }
    }
  }

  lemma AttemptKeepsCounted(db: Db, next: Db, attempt: Attempt, maxAttempts: nat)
    requires Counted(db, maxAttempts) && attempt.code < |db.codes|
    requires db.codes[attempt.code].failedAttempts < maxAttempts && next.log == db.log + [attempt]
    requires |next.codes| == |db.codes| && next.codes == db.codes[attempt.code := next.codes[attempt.code]]
    requires next.codes[attempt.code].failedAttempts
          == db.codes[attempt.code].failedAttempts + if attempt.accepted then 0 else 1
    ensures Counted(next, maxAttempts)
  {
    assert next.log[..|db.log|] == db.log;
  }

  lemma ConsumeKeepsInv(db: Db, userId: nat, codeHash: string, passwordHash: string, now: int, maxAttempts: nat)
    requires Inv(db, maxAttempts)
    ensures Inv(AfterConsume(db, userId, codeHash, passwordHash, now, maxAttempts), maxAttempts)
  {
    var at := LatestUnused(db.codes, userId);
    if at.Some? && db.codes[at.value].failedAttempts < maxAttempts {
      var next := AfterConsume(db, userId, codeHash, passwordHash, now, maxAttempts);
      var attempt := Attempt(at.value, Accepts(db.codes[at.value], codeHash, now, maxAttempts));
      AttemptKeepsLawful(db, next, attempt, maxAttempts);
      AttemptKeepsCounted(db, next, attempt, maxAttempts);
    }
  }

  lemma {:induction false} RunKeepsInv(db: Db, steps: seq<Step>, maxAttempts: nat)
    requires Inv(db, maxAttempts)
    ensures Inv(AfterAll(db, steps, maxAttempts), maxAttempts)
    decreases |steps|
  {
    if steps != [] {
      var before := AfterAll(db, steps[..|steps| - 1], maxAttempts);
      RunKeepsInv(db, steps[..|steps| - 1], maxAttempts);
      match steps[|steps| - 1]
      case CreateCode(u, h, e) => CreateKeepsInv(before, u, h, e, maxAttempts);
      case Consume(u, h, p, now) => ConsumeKeepsInv(before, u, h, p, now, maxAttempts);
      case ChangeUser(_, _) =>
    }
  }

  // ---------------------------------------------------------------- main results

  /** In every run, a user never has two unused codes, whoever changes the user meanwhile. */
  lemma {:induction false} AtMostOneUnusedCode(steps: seq<Step>, maxAttempts: nat, i: nat, j: nat)
    ensures var codes := AfterAll(EMPTY, steps, maxAttempts).codes;
            i < |codes| && j < |codes| && codes[i].userId == codes[j].userId && !codes[i].used && !codes[j].used
            ==> i == j
  {
    RunKeepsInv(EMPTY, steps, maxAttempts);
  }

  /**
   * In every run, an accepted attempt is the last one its code ever sees (so each code succeeds at
   * most once), and an attempt reaches a code only while fewer than maxAttempts have failed on it.
   */
  lemma CodesWorkOnce(steps: seq<Step>, maxAttempts: nat, k: nat, m: nat)
    requires k < m < |AfterAll(EMPTY, steps, maxAttempts).log|
    ensures var log := AfterAll(EMPTY, steps, maxAttempts).log;
            (log[k].accepted ==> log[m].code != log[k].code)
            && Failures(log[..m], log[m].code) < maxAttempts
            && Failures(log, log[m].code) <= maxAttempts
  {
    RunKeepsInv(EMPTY, steps, maxAttempts);
    var db := AfterAll(EMPTY, steps, maxAttempts);
    assert db.log[m].code < |db.codes|;
    if db.log[k].accepted { assert Silent(db.log, k); }
  }

  lemma {:induction false} NewestIsFound(codes: seq<Code>, i: nat)
    requires OnlyNewestUnused(codes) && i < |codes| && !codes[i].used
    ensures LatestUnused(codes, codes[i].userId) == Some(i)
  {
    var init := codes[..|codes| - 1];
    if i < |codes| - 1 {
      assert OnlyNewestUnused(init);
      NewestIsFound(init, i);
    }
  }

  /** Code `i` is the one a try of this user is compared with. */
  ghost predicate Current(codes: seq<Code>, i: nat, userId: nat) {
    i < |codes| && NewestOf(codes, i, userId) && !codes[i].used
  }

  /** The try matches the code, in time, with fewer than maxAttempts failures on it. */
  ghost predicate Succeeds(db: Db, i: nat, codeHash: string, now: int, maxAttempts: nat)
    requires i < |db.codes|
  {
    db.codes[i].codeHash == codeHash && now < db.codes[i].expiresAt && Failures(db.log, i) < maxAttempts
  }

  lemma CurrentIsFound(codes: seq<Code>, userId: nat)
    requires OnlyNewestUnused(codes)
    ensures forall i: nat :: Current(codes, i, userId) <==> LatestUnused(codes, userId) == Some(i)
  {
    forall i: nat ensures Current(codes, i, userId) <==> LatestUnused(codes, userId) == Some(i) {
      if Current(codes, i, userId) { NewestIsFound(codes, i); }
    }
  }

  // The users after a password was changed: only an active, undeleted driver is written.
  ghost predicate PasswordChanged(was: map<nat, User>, users: map<nat, User>, userId: nat, password: string) {
    if userId in was && was[userId].isDriver && was[userId].isActive && !was[userId].isDeleted
    then users == was[userId := User(true, true, false, password, was[userId].tokenVersion + 1)]
    else users == was
  }

  // What a try writes, given that code `i` is the one it is compared with.
  ghost predicate TryWrote(db: Db, next: Db, i: nat, userId: nat, codeHash: string, password: string, now: int,
                           max: nat)
    requires i < |db.codes|
  {
    var c := db.codes[i];
    if Succeeds(db, i, codeHash, now, max) then
      next.codes == db.codes[i := Code(userId, c.codeHash, c.expiresAt, true, c.failedAttempts)]
      && next.log == db.log + [Attempt(i, true)] && PasswordChanged(db.users, next.users, userId, password)
    else if Failures(db.log, i) < max then
      next.codes == db.codes[i := Code(userId, c.codeHash, c.expiresAt, false, c.failedAttempts + 1)]
      && next.log == db.log + [Attempt(i, false)] && next.users == db.users
    else next == db
  }

  lemma TryWrites(db: Db, i: nat, userId: nat, codeHash: string, password: string, now: int, max: nat)
    requires i < |db.codes| && LatestUnused(db.codes, userId) == Some(i)
    requires Failures(db.log, i) == db.codes[i].failedAttempts
    ensures var next := AfterConsume(db, userId, codeHash, password, now, max);
            TryWrote(db, next, i, userId, codeHash, password, now, max)
  {
  }

  /**
   * What a try does after every run. Without an unused newest code, nothing. Otherwise a try that
   * matches that code, in time and below the limit, spends it and changes the password; any other
   * try below the limit adds one failure to that code and nothing else; beyond the limit, nothing.
   */
  lemma TryWritesExactly(steps: seq<Step>, maxAttempts: nat, userId: nat, codeHash: string, password: string, now: int)
    ensures var db := AfterAll(EMPTY, steps, maxAttempts);
            var next := AfterConsume(db, userId, codeHash, password, now, maxAttempts);
            (!(exists i: nat :: Current(db.codes, i, userId)) ==> next == db)
            && forall i: nat :: Current(db.codes, i, userId) ==>
                 TryWrote(db, next, i, userId, codeHash, password, now, maxAttempts)
  {
    var db := AfterAll(EMPTY, steps, maxAttempts);
    RunKeepsInv(EMPTY, steps, maxAttempts);
    CurrentIsFound(db.codes, userId);
    var at := LatestUnused(db.codes, userId);
    if at.Some? {
      assert Current(db.codes, at.value, userId);
      TryWrites(db, at.value, userId, codeHash, password, now, maxAttempts);
    }
  }

  /**
   * After every run, a try is accepted exactly when its hash is that of the newest code of the user,
   * and that code is unused, unexpired and below the limit of failures: older codes are dead.
   */
  lemma AcceptedExactly(steps: seq<Step>, maxAttempts: nat, userId: nat, codeHash: string, password: string, now: int)
    ensures var db := AfterAll(EMPTY, steps, maxAttempts);
            var next := AfterConsume(db, userId, codeHash, password, now, maxAttempts);
            (exists i: nat :: next.log == db.log + [Attempt(i, true)])
            <==> exists i: nat ::
                   i < |db.codes| && NewestOf(db.codes, i, userId) && !db.codes[i].used
                   && db.codes[i].codeHash == codeHash && now < db.codes[i].expiresAt
                   && Failures(db.log, i) < maxAttempts
  {
    var db := AfterAll(EMPTY, steps, maxAttempts);
    var next := AfterConsume(db, userId, codeHash, password, now, maxAttempts);
    TryWritesExactly(steps, maxAttempts, userId, codeHash, password, now);
    if i: nat :| next.log == db.log + [Attempt(i, true)] {
      assert next.log[|db.log|] == Attempt(i, true) && |next.log| != |db.log|;
      var j: nat :| Current(db.codes, j, userId);
      assert Succeeds(db, j, codeHash, now, maxAttempts);
    }
    if i: nat :| i < |db.codes| && NewestOf(db.codes, i, userId) && !db.codes[i].used
                 && db.codes[i].codeHash == codeHash && now < db.codes[i].expiresAt
                 && Failures(db.log, i) < maxAttempts {
      assert Current(db.codes, i, userId) && Succeeds(db, i, codeHash, now, maxAttempts);
      assert next.log == db.log + [Attempt(i, true)];
    }
  }

  /** A new code retires the user's codes, touches nobody else's, and starts unused and without failures. */
  lemma CreateWrites(db: Db, userId: nat, codeHash: string, expiresAt: int, maxAttempts: nat)
    ensures var next := After(db, CreateCode(userId, codeHash, expiresAt), maxAttempts);
            |next.codes| == |db.codes| + 1 && next.users == db.users && next.log == db.log
            && next.codes[|db.codes|] == Code(userId, codeHash, expiresAt, false, 0)
            && forall i :: 0 <= i < |db.codes| ==>
                 var c := db.codes[i];
                 next.codes[i] == if c.userId == userId
                                  then Code(userId, c.codeHash, c.expiresAt, true, c.failedAttempts) else c
  {
  }

  ghost predicate NewestOf(codes: seq<Code>, i: nat, userId: nat)
    requires i < |codes|
  {
    codes[i].userId == userId && forall j :: i < j < |codes| ==> codes[j].userId != userId
  }

  /**
   * An accepted code changes the password and ends the sessions exactly when the user is an active
   * driver at that moment; otherwise the code is spent and nothing else happens.
   */
  lemma AcceptedButWithoutEffectExactly(db: Db, userId: nat, codeHash: string, password: string, now: int,
                                        maxAttempts: nat)
    requires LatestUnused(db.codes, userId).Some?
    requires Accepts(db.codes[LatestUnused(db.codes, userId).value], codeHash, now, maxAttempts)
    ensures var next := AfterConsume(db, userId, codeHash, password, now, maxAttempts);
            (next.users != db.users
             <==> userId in db.users && db.users[userId].isDriver && db.users[userId].isActive
                  && !db.users[userId].isDeleted)
            && PasswordChanged(db.users, next.users, userId, password)
            && LatestUnused(next.codes, userId) != LatestUnused(db.codes, userId)
  {
    var next := AfterConsume(db, userId, codeHash, password, now, maxAttempts);
    assert next.codes[LatestUnused(db.codes, userId).value].used;
    if ActiveDriver(db.users, userId) {
      assert next.users[userId].tokenVersion != db.users[userId].tokenVersion;
    }
  }

  // ---------------------------------------------------------------- the repository

  class DriverPasswordResetRepository {
    var codes: seq<Code>
    var users: map<nat, User>
    ghost var log: seq<Attempt>

    ghost function State(): Db
      reads this
    {
      Db(codes, users, log)
    }

    constructor (users: map<nat, User>)
      ensures State() == Db([], users, [])
    {
      this.codes, this.users, this.log := [], users, [];
    }

    method CreateCode(userId: nat, codeHash: string, expiresAt: int)
      modifies this
      ensures State() == After(old(State()), Step.CreateCode(userId, codeHash, expiresAt), 0)
    {
      codes := Retired(codes, userId);
      codes := codes + [Code(userId, codeHash, expiresAt, false, 0)];
    }

    // Searches from the newest id down.
    method FindUnused(userId: nat) returns (at: Option<nat>)
      ensures at == LatestUnused(codes, userId)
    {
      var i := |codes|;
      assert codes[..i] == codes;
      while i > 0
        invariant 0 <= i <= |codes| && LatestUnused(codes[..i], userId) == LatestUnused(codes, userId)
      {
        assert codes[..i][..i - 1] == codes[..i - 1];
        if codes[i - 1].userId == userId && !codes[i - 1].used {
          return Some(i - 1);
        }
        i := i - 1;
      }
      return None;
    }

    method ConsumeCodeAndUpdatePassword(userId: nat, codeHash: string, passwordHash: string, maxAttempts: nat, now: int)
      returns (ok: bool)
      modifies this
      ensures State() == AfterConsume(old(State()), userId, codeHash, passwordHash, now, maxAttempts)
      ensures ok <==> exists i: nat :: State().log == old(log) + [Attempt(i, true)]
    {
      ghost var was := log;
      var at := FindUnused(userId);
      if at.None? {
        assert forall i: nat :: |was + [Attempt(i, true)]| != |log|;
        return false;
      }
      var i := at.value;
      var code := codes[i];
      if code.failedAttempts >= maxAttempts || code.expiresAt <= now || code.codeHash != codeHash {
        if code.failedAttempts < maxAttempts {
          codes := codes[i := code.(failedAttempts := code.failedAttempts + 1)];
          log := log + [Attempt(i, false)];
          assert log[|was|] == Attempt(i, false);
        }
        assert forall j: nat :: log == was + [Attempt(j, true)] ==> log[|was|] == Attempt(j, true);
        return false;
      }
      users := WithPassword(users, userId, passwordHash);
      codes := codes[i := code.(used := true)];
      log := log + [Attempt(i, true)];
      return true;
    }
  }
}
