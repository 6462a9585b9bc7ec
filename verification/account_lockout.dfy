/**
 * Progressive account lockout: a pure policy over the number of failed
 * attempts, the time of the last attempt and the current time (all times in
 * milliseconds). The policy is a standalone component: the authentication
 * strategies do not consult it.
 */
module AccountLockout {
  import opened Base

  const MinuteMs: int := 60 * 1000
  const HourMs: int := 60 * MinuteMs

  /** Inclusive lower bounds of the lockout tiers. */
  const AttemptThresholds: seq<int> := [5, 10, 15, 20, 25]

  /** Lockout length of each tier, paired by position with the thresholds. */
  const LockoutDurations: seq<int> :=
    [5 * MinuteMs, 15 * MinuteMs, 1 * HourMs, 6 * HourMs, 24 * HourMs]

  const MaxLockoutMs: int := 24 * HourMs

  /** Attempts at or beyond which the account should be blocked for good. */
  const PermanentBlockThreshold: int := 50

  /**
   * Tier `i` is the one whose threshold is the highest one not exceeding
   * `attempts`.
   */
  predicate IsTier(attempts: int, i: int)
  {
    && 0 <= i < |AttemptThresholds|
    && AttemptThresholds[i] <= attempts
    && (i + 1 == |AttemptThresholds| || attempts < AttemptThresholds[i + 1])
  }

  /**
   * Lockout length for a number of attempts: nothing below the first
   * threshold, otherwise the duration paired with the highest threshold
   * reached; beyond the last threshold there is no further escalation.
   */
  function LockoutDuration(attempts: int): (d: int)
    ensures attempts < AttemptThresholds[0] ==> d == 0
    ensures forall i :: IsTier(attempts, i) ==> d == LockoutDurations[i]
    ensures 0 <= d <= MaxLockoutMs
  {
    if attempts < 5 then 0
    else if attempts < 10 then 5 * MinuteMs
    else if attempts < 15 then 15 * MinuteMs
    else if attempts < 20 then 1 * HourMs
    else if attempts < 25 then 6 * HourMs
    else 24 * HourMs
  }

  /**
   * `calculateLockoutDuration` as the source computes it: scan the
   * thresholds in order, remember the last one reached, stop at the first
   * one not reached, then take the paired duration (falling back to the last
   * duration if the paired one were zero).
   */
  method CalculateLockoutDuration(attempts: int) returns (d: int)
    ensures d == LockoutDuration(attempts)
  {
    if attempts < AttemptThresholds[0] {
      return 0;
    }
    var index := 0;
    var i := 0;
    while i < |AttemptThresholds|
      invariant 0 <= i <= |AttemptThresholds|
      invariant index == if i == 0 then 0 else i - 1
      invariant forall j :: 0 <= j < i ==> AttemptThresholds[j] <= attempts
    {
      if attempts >= AttemptThresholds[i] {
        index := i;
      } else {
        break;
      }
      i := i + 1;
    }
    assert IsTier(attempts, index);
    var paired := LockoutDurations[index];
    // The fallback to the last duration never applies: no paired duration is 0.
    d := if paired != 0 then paired else MaxLockoutMs;
  }

  /**
   * `isAccountLocked`: never locked below the first threshold or without a
   * last-attempt time; otherwise locked strictly before
   * `lastAttempt + duration`.
   */
  function IsAccountLocked(attempts: int, lastAttempt: Option<int>, now: int): (locked: bool)
    ensures locked ==> attempts >= AttemptThresholds[0] && lastAttempt.Some?
    ensures locked ==> now < lastAttempt.value + MaxLockoutMs
  {
    if attempts < AttemptThresholds[0] then false
    else if lastAttempt.None? then false
    else now < lastAttempt.value + LockoutDuration(attempts)
  }

  /** `shouldBlockUser`: the permanent-block rule, independent of time. */
  function ShouldBlockUser(attempts: int): (block: bool)
    ensures block ==> LockoutDuration(attempts) == MaxLockoutMs
  {
    attempts >= PermanentBlockThreshold
  }

  /**
   * Permanent blocking starts at the fiftieth attempt and, once reached,
   * holds for every higher count.
   */
  lemma BlockingStartsAtFifty(fewer: int, more: int)
    ensures !ShouldBlockUser(49) && ShouldBlockUser(50)
    ensures fewer <= more && ShouldBlockUser(fewer) ==> ShouldBlockUser(more)
  {
  }

  /**
   * `getRemainingLockoutTime`: zero unless locked; while locked, the time
   * left until the lock expires.
   */
  function GetRemainingLockoutTime(attempts: int, lastAttempt: Option<int>, now: int): (left: int)
    ensures left > 0 <==> IsAccountLocked(attempts, lastAttempt, now)
    ensures !IsAccountLocked(attempts, lastAttempt, now) ==> left == 0
    ensures IsAccountLocked(attempts, lastAttempt, now) ==>
              now + left == lastAttempt.value + LockoutDuration(attempts)
    ensures lastAttempt.Some? && lastAttempt.value <= now ==> left <= LockoutDuration(attempts)
  {
    if !IsAccountLocked(attempts, lastAttempt, now) || lastAttempt.None? then 0
    else
      var expiry := lastAttempt.value + LockoutDuration(attempts);
      if expiry - now > 0 then expiry - now else 0
  }

  /** More attempts never shorten the lockout. */
  lemma DurationMonotone(a: int, b: int)
    requires a <= b
    ensures LockoutDuration(a) <= LockoutDuration(b)
  {
  }

  /**
   * With a recorded last attempt and at least five attempts, the account is
   * locked exactly on the interval before `lastAttempt + duration`: it is
   * unlocked at the expiry instant and stays unlocked afterwards.
   */
  lemma LockedExactlyBeforeExpiry(attempts: int, last: int, t: int)
    requires attempts >= AttemptThresholds[0]
    ensures IsAccountLocked(attempts, Some(last), t) <==> t < last + LockoutDuration(attempts)
    ensures !IsAccountLocked(attempts, Some(last), last + LockoutDuration(attempts))
  {
  }

  /** Being locked at a later time implies being locked at every earlier time. */
  lemma LockIsDownwardClosedInTime(attempts: int, lastAttempt: Option<int>, t1: int, t2: int)
    requires t1 <= t2
    requires IsAccountLocked(attempts, lastAttempt, t2)
    ensures IsAccountLocked(attempts, lastAttempt, t1)
  {
  }

  /** The first tier starts at the fifth failure, inclusively. */
  lemma FifthFailureLocksForFiveMinutes(last: int)
    ensures !IsAccountLocked(4, Some(last), last)
    ensures IsAccountLocked(5, Some(last), last)
    ensures GetRemainingLockoutTime(5, Some(last), last) == 5 * MinuteMs
    ensures !IsAccountLocked(5, Some(last), last + 5 * MinuteMs)
  {
  }
}
