/** The relay's limit on wrong passwords: after five failures a target is locked for a minute, and ten
    minutes of quiet forget them. Times are nanoseconds from a clock that never goes back; attempts on
    one target are taken one after the other, those on different targets may overlap. */
module Lockout {

  const SECOND: nat := 1_000_000_000
  const MAX_FAILS: nat := 5
  const LOCKOUT: nat := 60 * SECOND
  const FAIL_WINDOW: nat := 600 * SECOND

  /** No record is the same as a record with no failures and no time. */
  datatype Record = Record(count: nat, last: nat)

  type Table = map<string, Record>

  /** What the registry and the password check say about an attempt. */
  datatype Credential = UnknownTarget | WrongPassword | RightPassword

  /** One connection attempt: the times of the two clock reads of the check, of the one for the wait that
      a refusal reports, and of the one that records a failure. */
  datatype Attempt = Attempt(
    target: string, checkedAt: nat, lockedAt: nat, reportedAt: nat, failedAt: nat, cred: Credential)

  datatype Outcome = Refused(wait: int) | NotFound | Denied | Admitted

  predicate Expired(t: Table, target: string, now: nat) {
    target in t && now - t[target].last > FAIL_WINDOW
  }

  /** The table after the expiry check. */
  function Forget(t: Table, target: string, now: nat): Table {
    if Expired(t, target, now) then t - {target} else t
  }

  predicate Locked(t: Table, target: string, now: nat) {
    target in t && t[target].count >= MAX_FAILS && now - t[target].last < LOCKOUT
  }

  predicate IsRefused(t: Table, a: Attempt) {
    Locked(Forget(t, a.target, a.checkedAt), a.target, a.lockedAt)
  }

  /** A failed password check that was not refused beforehand. */
  predicate Fails(t: Table, a: Attempt) {
    !IsRefused(t, a) && a.cred == WrongPassword
  }

  function Step(t: Table, a: Attempt): Table {
    var t1 := Forget(t, a.target, a.checkedAt);
    if IsRefused(t, a) || a.cred == UnknownTarget then t1
    else if a.cred == WrongPassword then
      var count := if a.target in t1 then t1[a.target].count else 0;
      t1[a.target := Record(count + 1, a.failedAt)]
    else t1 - {a.target}
  }

  function Run(t: Table, as': seq<Attempt>): Table {
    if as' == [] then t else Step(Run(t, as'[..|as'| - 1]), as'[|as'| - 1])
  }

  /** The attempts on one target come one after the other, whatever the times of all others. */
  predicate Serial(as': seq<Attempt>, target: string) {
    as' == [] ||
    var front, a := as'[..|as'| - 1], as'[|as'| - 1];
    && Serial(front, target)
    && (a.target == target ==> EndOf(front, target) <= a.checkedAt <= a.lockedAt <= a.failedAt)
  }

  /** When the last attempt on a target ended. */
  function EndOf(as': seq<Attempt>, target: string): nat {
    if as' == [] then 0
    else if as'[|as'| - 1].target == target then as'[|as'| - 1].failedAt
    else EndOf(as'[..|as'| - 1], target)
  }

  /** Whole seconds, rounded towards zero. */
  function Seconds(d: int): int {
    if d >= 0 then d / SECOND else -(-d / SECOND)
  }

  /** The relay's connection handler. A refusal that is reported before the lock ends names a number of
      seconds after which the lock is over, and never more than a second too many. */
  class Hub {
    var failCount: Table

    constructor ()
      ensures failCount == map[]
    {
      failCount := map[];
    }

    method HandleConnect(a: Attempt) returns (r: Outcome)
      modifies this
      ensures failCount == Step(old(failCount), a)
      ensures r.Refused? <==> IsRefused(old(failCount), a)
      ensures !r.Refused? ==> r == match a.cred
                                   case UnknownTarget => NotFound
                                   case WrongPassword => Denied
                                   case RightPassword => Admitted
      ensures r.Refused? ==>
                var left := 60_000_000_000 - (a.reportedAt - old(failCount)[a.target].last);
                && r.wait == Seconds(left) + 1
                && (left >= 0 ==> (r.wait - 1) * 1_000_000_000 <= left < r.wait * 1_000_000_000)
      ensures !r.Refused? && a.cred == WrongPassword ==>
                var t := old(failCount);
                var known := a.target in t && a.checkedAt - t[a.target].last <= 600_000_000_000;
                failCount == t[a.target := Record(if known then t[a.target].count + 1 else 1, a.failedAt)]
      ensures !r.Refused? && a.cred == UnknownTarget ==>
                var t := old(failCount);
                var known := a.target in t && a.checkedAt - t[a.target].last <= 600_000_000_000;
                failCount == if known then t else t - {a.target}
      ensures !r.Refused? && a.cred == RightPassword ==> a.target !in failCount
    {
      var rec := if a.target in failCount then failCount[a.target] else Record(0, 0);
      var known := a.target in failCount;
      if known && a.checkedAt - rec.last > FAIL_WINDOW {
        rec, known := Record(0, 0), false;
        failCount := failCount - {a.target};
      }
      var locked := known && rec.count >= MAX_FAILS && a.lockedAt - rec.last < LOCKOUT;
      if locked {
        return Refused(Seconds(LOCKOUT - (a.reportedAt - rec.last)) + 1);
      }
      if a.cred == UnknownTarget {
        return NotFound;
      }
      if a.cred == WrongPassword {
        var r1 := if a.target in failCount then failCount[a.target] else Record(0, 0);
        r1 := Record(r1.count + 1, a.failedAt);
        failCount := failCount[a.target := r1];
        return Denied;
      }
      failCount := failCount - {a.target};
      return Admitted;
    }
  }

  // ---- Runs ----

  /** The times of the failed password checks on a target. */
  function FailTimes(t: Table, as': seq<Attempt>, target: string): seq<nat> {
    if as' == [] then []
    else
      var front, a := as'[..|as'| - 1], as'[|as'| - 1];
      FailTimes(t, front, target) + (if a.target == target && Fails(Run(t, front), a) then [a.failedAt] else [])
  }

  predicate NoSuccess(as': seq<Attempt>, target: string) {
    forall i :: 0 <= i < |as'| ==> !(as'[i].target == target && as'[i].cred == RightPassword)
  }

  /** How many failures the count pays for without any waiting. */
  function Free(count: nat): nat {
    if count < MAX_FAILS then count else MAX_FAILS
  }

  /** The last failures are on record, or ten quiet minutes have passed since the last one; and every
      failure that is not free has cost a minute. */
  ghost predicate Paid(t: Table, target: string, times: seq<nat>, now: nat) {
    times != [] ==>
      var spent: int := times[|times| - 1] as int - times[0] as int;
      && times[|times| - 1] <= now
      && (target in t ==> t[target].last == times[|times| - 1] && spent >= LOCKOUT * (|times| - Free(t[target].count)))
      && (target !in t ==> now > times[|times| - 1] + FAIL_WINDOW && spent >= LOCKOUT * (|times| - MAX_FAILS))
  }

  lemma PaidFailure(t: Table, times: seq<nat>, now: nat, a: Attempt)
    requires Paid(t, a.target, times, now) && Fails(t, a)
    requires now <= a.checkedAt <= a.lockedAt <= a.failedAt
    ensures Paid(Step(t, a), a.target, times + [a.failedAt], a.failedAt)
  {
  }

  lemma PaidOther(t: Table, target: string, times: seq<nat>, now: nat, a: Attempt)
    requires Paid(t, target, times, now) && !(a.target == target && Fails(t, a))
    requires !(a.target == target && a.cred == RightPassword)
    requires a.target == target ==> now <= a.checkedAt <= a.lockedAt <= a.failedAt
    ensures Paid(Step(t, a), target, times, if a.target == target then a.failedAt else now)
  {
  }

  lemma {:induction false} PaidRun(t: Table, as': seq<Attempt>, target: string)
    requires Serial(as', target) && NoSuccess(as', target)
    ensures Paid(Run(t, as'), target, FailTimes(t, as', target), EndOf(as', target))
  {
    if as' != [] {
      var front, a := as'[..|as'| - 1], as'[|as'| - 1];
      var times := FailTimes(t, front, target);
      PaidRun(t, front, target);
      if a.target == target && Fails(Run(t, front), a) {
        PaidFailure(Run(t, front), times, EndOf(front, target), a);
      } else {
        PaidOther(Run(t, front), target, times, EndOf(front, target), a);
        assert times + [] == times;
      }
    }
  }

  /** Guessing is slow: whatever the table held before and whatever happens on other targets meanwhile, n
      failed checks on a target with no success in between span at least n - 5 minutes, although ten quiet
      minutes forget the failures. */
  lemma GuessingIsSlow(t: Table, as': seq<Attempt>, target: string)
    requires Serial(as', target) && NoSuccess(as', target) && FailTimes(t, as', target) != []
    ensures var times := FailTimes(t, as', target);
            times[|times| - 1] - times[0] >= 60_000_000_000 * (|times| - 5)
  {
    PaidRun(t, as', target);
  }

  /** A refused attempt changes nothing, so it cannot extend the lock. */
  lemma RefusedChangesNothing(t: Table, a: Attempt)
    requires IsRefused(t, a)
    ensures Step(t, a) == t
  {
  }

  /** An attempt on one target leaves every other target's record alone. */
  lemma OtherTargetsKept(t: Table, a: Attempt, other: string)
    requires other != a.target
    ensures (other in Step(t, a) <==> other in t) && (other in t ==> Step(t, a)[other] == t[other])
  {
  }

  /** Failures counted and failures that happened. */
  ghost predicate OnRecord(t: Table, target: string, times: seq<nat>) {
    target in t ==> 1 <= t[target].count <= |times| && t[target].last == times[|times| - 1]
  }

  lemma {:induction false} RecordsAreFailures(as': seq<Attempt>, target: string)
    ensures OnRecord(Run(map[], as'), target, FailTimes(map[], as', target))
  {
    if as' != [] {
      RecordsAreFailures(as'[..|as'| - 1], target);
    }
  }

  // ---- When a target is locked ----

  /** A failed password check: when it was checked and when it was recorded. */
  datatype Failure = Failure(checkedAt: nat, failedAt: nat)

  /** The failed checks on a target since its last successful login. */
  function SinceSuccess(as': seq<Attempt>, target: string): seq<Failure> {
    if as' == [] then []
    else
      var front, a := as'[..|as'| - 1], as'[|as'| - 1];
      var before := SinceSuccess(front, target);
      if a.target != target || IsRefused(Run(map[], front), a) then before
      else match a.cred
           case UnknownTarget => before
           case WrongPassword => before + [Failure(a.checkedAt, a.failedAt)]
           case RightPassword => []
  }

  /** How many of the last failures were each checked within ten minutes of the one before it. */
  function Burst(fs: seq<Failure>): (n: nat)
    ensures n <= |fs| && (fs != [] ==> n > 0)
  {
    if |fs| <= 1 then |fs|
    else if fs[|fs| - 1].checkedAt - fs[|fs| - 2].failedAt > FAIL_WINDOW then 1
    else 1 + Burst(fs[..|fs| - 1])
  }

  /** The record counts the burst; without one, the last failure has been quiet for ten minutes. */
  ghost predicate CountsBurst(t: Table, target: string, fs: seq<Failure>, now: nat) {
    if target in t then
      fs != [] && t[target].count == Burst(fs) && t[target].last == fs[|fs| - 1].failedAt
    else
      fs == [] || now > fs[|fs| - 1].failedAt + FAIL_WINDOW
  }

  lemma BurstFailure(t: Table, fs: seq<Failure>, now: nat, a: Attempt)
    requires CountsBurst(t, a.target, fs, now) && Fails(t, a) && now <= a.checkedAt
    ensures CountsBurst(Step(t, a), a.target, fs + [Failure(a.checkedAt, a.failedAt)], a.failedAt)
  {
    assert (fs + [Failure(a.checkedAt, a.failedAt)])[..|fs|] == fs;
  }

  lemma BurstOther(t: Table, target: string, fs: seq<Failure>, now: nat, a: Attempt)
    requires CountsBurst(t, target, fs, now) && (a.target == target ==> now <= a.checkedAt <= a.failedAt)
    requires a.target != target || IsRefused(t, a) || a.cred == UnknownTarget
    ensures CountsBurst(Step(t, a), target, fs, if a.target == target then a.failedAt else now)
  {
  }

  lemma {:induction false} RunCountsBurst(as': seq<Attempt>, target: string)
    requires Serial(as', target)
    ensures CountsBurst(Run(map[], as'), target, SinceSuccess(as', target), EndOf(as', target))
  {
    if as' != [] {
      var front, a := as'[..|as'| - 1], as'[|as'| - 1];
      var t, fs := Run(map[], front), SinceSuccess(front, target);
      RunCountsBurst(front, target);
      if a.target == target && Fails(t, a) {
        BurstFailure(t, fs, EndOf(front, target), a);
      } else if a.target != target || IsRefused(t, a) || a.cred == UnknownTarget {
        BurstOther(t, target, fs, EndOf(front, target), a);
      }
    }
  }

  /** The last five failures, each checked within ten minutes of the one before it. */
  predicate FiveInARow(fs: seq<Failure>) {
    |fs| >= 5 && forall k :: |fs| - 5 < k < |fs| ==> fs[k].checkedAt - fs[k - 1].failedAt <= 600_000_000_000
  }

  lemma {:induction false} BurstIsRow(fs: seq<Failure>, n: nat)
    requires 0 < n
    ensures Burst(fs) >= n <==>
            |fs| >= n && forall k :: |fs| - n < k < |fs| ==> fs[k].checkedAt - fs[k - 1].failedAt <= FAIL_WINDOW
  {
    if n > 1 && |fs| > 1 {
      var front := fs[..|fs| - 1];
      BurstIsRow(front, n - 1);
      assert forall k :: 0 <= k < |front| ==> front[k] == fs[k];
    }
  }

  /** A target is refused exactly when, since its last successful login, its last five failed checks came
      each within ten minutes of the one before it, and the last of them is less than a minute old. So
      every lock ends a minute after the last failure. */
  lemma LockedIff(as': seq<Attempt>, a: Attempt)
    requires Serial(as' + [a], a.target)
    ensures var fs := SinceSuccess(as', a.target);
            IsRefused(Run(map[], as'), a) <==> FiveInARow(fs) && a.lockedAt - fs[|fs| - 1].failedAt < 60_000_000_000
  {
    var fs := SinceSuccess(as', a.target);
    assert (as' + [a])[..|as'|] == as';
    RunCountsBurst(as', a.target);
    BurstIsRow(fs, MAX_FAILS);
  }

  /** Whatever the order of the attempts, a target is refused only if five of its checks failed and the
      last of them was less than a minute ago. */
  lemma LockEnds(as': seq<Attempt>, a: Attempt)
    requires IsRefused(Run(map[], as'), a)
    ensures var times := FailTimes(map[], as', a.target);
            |times| >= 5 && a.lockedAt - times[|times| - 1] < 60_000_000_000
  {
    RecordsAreFailures(as', a.target);
  }

  /** Every wrong password for the target is checked more than ten minutes after the last failure. */
  predicate RareFailures(as': seq<Attempt>, target: string) {
    as' == [] ||
    var front, a := as'[..|as'| - 1], as'[|as'| - 1];
    var times := FailTimes(map[], front, target);
    && RareFailures(front, target)
    && (a.target == target && a.cred == WrongPassword && times != [] ==>
          a.checkedAt - times[|times| - 1] > 600_000_000_000)
  }

  lemma {:induction false} RareFailuresCountOne(as': seq<Attempt>, target: string)
    requires RareFailures(as', target)
    ensures target in Run(map[], as') ==> Run(map[], as')[target].count <= 1
  {
    if as' != [] {
      var front := as'[..|as'| - 1];
      RareFailuresCountOne(front, target);
      RecordsAreFailures(front, target);
    }
  }

  /** Failures on a target more than ten minutes apart never lock it, whatever its other attempts and
      whatever happens to other targets in between. */
  lemma RareFailuresNeverLock(as': seq<Attempt>, a: Attempt)
    requires RareFailures(as', a.target)
    ensures !IsRefused(Run(map[], as'), a)
  {
    RareFailuresCountOne(as', a.target);
  }
}
