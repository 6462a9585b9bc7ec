/**
 * `InMemoryRateLimitService` and the two limiter middlewares built on it.
 * The store maps a key to a counter and the end of its window; a call inside
 * the window counts against the limit, and the first call after the window
 * opens a new one. Times are milliseconds and passed in.
 */
module RateLimit {
  import opened Base
  import opened Requests

  /** `{count, resetTime}`: calls counted in the window ending at `resetTime`. */
  datatype Record = Record(count: int, resetTime: int)

  type Store = map<string, Record>

  /** The answer of `isAllowed` and the store it leaves behind. */
  datatype Decision = Decision(allowed: bool, store: Store)

  /** The record of `key` is inside its window at `now` (the end is included). */
  predicate InWindow(store: Store, key: string, now: int)
  {
    key in store && now <= store[key].resetTime
  }

  /**
   * `isAllowed`: outside a window a new one opens with this call counted
   * and the call is allowed; inside, the call is refused once `maxAttempts`
   * calls were counted and otherwise counted and allowed.
   */
  function IsAllowed(store: Store, key: string, maxAttempts: int, windowMs: int, now: int): (d: Decision)
    ensures !InWindow(store, key, now) ==> d.allowed && key in d.store && d.store[key] == Record(1, now + windowMs)
    ensures InWindow(store, key, now) ==>
              (d.allowed <==> store[key].count < maxAttempts)
              && key in d.store
              && d.store[key].resetTime == store[key].resetTime
              && d.store[key].count == store[key].count + (if d.allowed then 1 else 0)
    ensures !d.allowed ==> d.store == store
    // Only the record of `key` changes.
    ensures d.store.Keys == store.Keys + {key}
    ensures forall k :: k in store && k != key ==> d.store[k] == store[k]
  {
    if !InWindow(store, key, now) then
      Decision(true, store[key := Record(1, now + windowMs)])
    else if store[key].count >= maxAttempts then
      Decision(false, store)
    else
      Decision(true, store[key := store[key].(count := store[key].count + 1)])
  }

  /** `getAttempts`: the counted calls of `key`, 0 when it has no record. */
  function GetAttempts(store: Store, key: string): (n: int)
    ensures key !in store ==> n == 0
    ensures key in store ==> n == store[key].count
  {
    if key in store then store[key].count else 0
  }

  /** `reset`: forget `key` and nothing else. */
  function Reset(store: Store, key: string): (r: Store)
    ensures key !in r
    ensures forall k :: k != key ==> (k in r <==> k in store)
    ensures forall k :: k in r ==> k in store && r[k] == store[k]
  {
    store - {key}
  }

  /** `cleanup`: drop exactly the records whose window ended before `now`. */
  function Cleanup(store: Store, now: int): (r: Store)
    ensures forall k :: k in r <==> InWindow(store, k, now)
    ensures forall k :: k in r ==> k in store && r[k] == store[k]
  {
    map k | k in store && now <= store[k].resetTime :: store[k]
  }

  /** Every record has counted at least one and at most `maxAttempts` calls. */
  predicate Bounded(store: Store, maxAttempts: int)
  {
    forall k :: k in store ==> 1 <= store[k].count <= maxAttempts
  }

  /** With a limit of at least one, `isAllowed` keeps every count within it. */
  lemma IsAllowedKeepsBounded(store: Store, key: string, maxAttempts: int, windowMs: int, now: int)
    requires maxAttempts >= 1 && Bounded(store, maxAttempts)
    ensures Bounded(IsAllowed(store, key, maxAttempts, windowMs, now).store, maxAttempts)
  {
  }

  /**
   * The first call of a window is allowed whatever the limit, so a limit
   * of zero still lets one call through per window.
   */
  lemma ZeroLimitStillAllowsFirstCall(key: string, windowMs: int, now: int)
    ensures IsAllowed(map[], key, 0, windowMs, now).allowed
    ensures !IsAllowed(IsAllowed(map[], key, 0, windowMs, now).store, key, 0, windowMs, now).allowed
            <== windowMs >= 0
  {
  }

  /**
   * Cleanup is unobservable: checking against a cleaned store gives the same
   * answer, and the same store after cleaning, as checking against the
   * original one.
   */
  lemma CleanupCommutesWithIsAllowed(store: Store, key: string, maxAttempts: int, windowMs: int, now: int)
    requires windowMs >= 0
    ensures IsAllowed(Cleanup(store, now), key, maxAttempts, windowMs, now).allowed
            == IsAllowed(store, key, maxAttempts, windowMs, now).allowed
    ensures IsAllowed(Cleanup(store, now), key, maxAttempts, windowMs, now).store
            == Cleanup(IsAllowed(store, key, maxAttempts, windowMs, now).store, now)
  {
    var lhs := IsAllowed(Cleanup(store, now), key, maxAttempts, windowMs, now).store;
    var rhs := Cleanup(IsAllowed(store, key, maxAttempts, windowMs, now).store, now);
    assert lhs.Keys == rhs.Keys;
  }

  /** After `reset`, the next call opens a fresh window. */
  lemma ResetStartsFreshWindow(store: Store, key: string, maxAttempts: int, windowMs: int, now: int)
    ensures var d := IsAllowed(Reset(store, key), key, maxAttempts, windowMs, now);
            d.allowed && GetAttempts(d.store, key) == 1
  {
  }

  // ---------------------------------------------------------------------------
  // A sequence of calls on one key
  // ---------------------------------------------------------------------------

  /** How many of a sequence of calls were allowed, and the final store. */
  datatype Tally = Tally(allowed: nat, store: Store)

  /** The calls of one key at the given times, in order. */
  function Replay(store: Store, key: string, maxAttempts: int, windowMs: int, times: seq<int>): (t: Tally)
    ensures t.allowed <= |times|
    decreases |times|
  {
    if times == [] then Tally(0, store)
    else
      var d := IsAllowed(store, key, maxAttempts, windowMs, times[0]);
      var rest := Replay(d.store, key, maxAttempts, windowMs, times[1..]);
      Tally((if d.allowed then 1 else 0) + rest.allowed, rest.store)
  }

  function Min(a: int, b: int): int
  {
    if a <= b then a else b
  }

  /**
   * Inside one window, calls are allowed until the limit is reached and
   * refused from then on: of the calls made up to the end of the window,
   * exactly `min(calls, maxAttempts - count)` are allowed.
   */
  lemma {:induction false} WindowAllowsUpToLimit(
    store: Store, key: string, maxAttempts: int, windowMs: int, times: seq<int>
  )
    requires key in store && store[key].count <= maxAttempts
    requires forall i :: 0 <= i < |times| ==> times[i] <= store[key].resetTime
    ensures var t := Replay(store, key, maxAttempts, windowMs, times);
            && t.allowed == Min(|times|, maxAttempts - store[key].count)
            && key in t.store
            && t.store[key] == Record(store[key].count + t.allowed, store[key].resetTime)
    decreases |times|
  {
    if times != [] {
      var d := IsAllowed(store, key, maxAttempts, windowMs, times[0]);
      assert d.store[key].resetTime == store[key].resetTime;
      WindowAllowsUpToLimit(d.store, key, maxAttempts, windowMs, times[1..]);
    }
  }

  /**
   * A window opened by a call at `start` lets at most `maxAttempts` calls
   * through up to `start + windowMs`, however many are made.
   */
  lemma AtMostLimitPerWindow(
    store: Store, key: string, maxAttempts: int, windowMs: int, start: int, later: seq<int>
  )
    requires maxAttempts >= 1
    requires !InWindow(store, key, start)
    requires forall i :: 0 <= i < |later| ==> later[i] <= start + windowMs
    ensures Replay(store, key, maxAttempts, windowMs, [start] + later).allowed
            == Min(1 + |later|, maxAttempts)
  {
    var d := IsAllowed(store, key, maxAttempts, windowMs, start);
    assert ([start] + later)[1..] == later;
    WindowAllowsUpToLimit(d.store, key, maxAttempts, windowMs, later);
  }

  // ---------------------------------------------------------------------------
  // The limiter middlewares
  // ---------------------------------------------------------------------------

  /** `createAuthLimiter()` defaults and the stricter limiter on the login routes. */
  const AuthMaxAttempts: int := 5
  const AuthWindowMs: int := 15 * 60 * 1000
  const StrictAuthMaxAttempts: int := 3
  const StrictAuthWindowMs: int := 10 * 60 * 1000
  /** `createEmailLimiter()` defaults. */
  const EmailMaxAttempts: int := 3
  const EmailWindowMs: int := 5 * 60 * 1000

  /** Pass the request on, or answer 429 with this message and `retryAfter`. */
  datatype Verdict = Proceed | TooManyRequests(message: string, retryAfter: int)

  /** The limiter's decision and the store it leaves behind. */
  datatype Limited = Limited(verdict: Verdict, store: Store)

  /** `Math.ceil(windowMs / 1000)`: the window in whole seconds, rounded up. */
  function RetryAfter(windowMs: int): (s: int)
    ensures (s - 1) * 1000 < windowMs <= s * 1000
  {
    (windowMs + 999) / 1000
  }

  function AuthKey(ip: string): string { "auth:" + ip }
  function EmailIpKey(ip: string): string { "email:ip:" + ip }
  function EmailAddressKey(email: string): string { "email:addr:" + email }

  /** The auth limiter: one counter per client address. */
  function AuthLimiter(store: Store, ip: string, maxAttempts: int, windowMs: int, now: int): (r: Limited)
    ensures r.verdict.Proceed? <==> IsAllowed(store, AuthKey(ip), maxAttempts, windowMs, now).allowed
    ensures r.verdict.TooManyRequests? ==>
              r.store == store
              && r.verdict == TooManyRequests("Too many authentication attempts. Please try again later.", RetryAfter(windowMs))
    // Either way the limiter leaves the store `isAllowed` produced: a passing call is counted.
    ensures r.store == IsAllowed(store, AuthKey(ip), maxAttempts, windowMs, now).store
  {
    var d := IsAllowed(store, AuthKey(ip), maxAttempts, windowMs, now);
    if !d.allowed then
      Limited(TooManyRequests("Too many authentication attempts. Please try again later.", RetryAfter(windowMs)), d.store)
    else
      Limited(Proceed, d.store)
  }

  /**
   * The email limiter: the client address is checked first; only when it
   * passes and the raw `identifier` field is truthy is that identifier's
   * text (`String(identifier)`, so `[]` counts under "email:addr:") checked too.
   */
  function EmailLimiter(store: Store, ip: string, email: Field, maxAttempts: int, windowMs: int, now: int)
    : (r: Limited)
    // A refused client address leaves the address counter untouched.
    ensures !IsAllowed(store, EmailIpKey(ip), maxAttempts, windowMs, now).allowed ==>
              r == Limited(TooManyRequests("Too many email requests from this IP. Please try again later.",
                                           RetryAfter(windowMs)), store)
    ensures r.verdict.Proceed? ==>
              IsAllowed(store, EmailIpKey(ip), maxAttempts, windowMs, now).allowed
              && (Present(email) ==>
                    IsAllowed(IsAllowed(store, EmailIpKey(ip), maxAttempts, windowMs, now).store,
                              EmailAddressKey(Coerce(email)), maxAttempts, windowMs, now).allowed)
    ensures !Present(email) ==> r.store == IsAllowed(store, EmailIpKey(ip), maxAttempts, windowMs, now).store
    ensures !Present(email) ==> (r.verdict.Proceed? <==> IsAllowed(store, EmailIpKey(ip), maxAttempts, windowMs, now).allowed)
    // With an address and a passing client address, the address counter decides and its store is kept.
    ensures Present(email) && IsAllowed(store, EmailIpKey(ip), maxAttempts, windowMs, now).allowed ==>
              var afterIp := IsAllowed(store, EmailIpKey(ip), maxAttempts, windowMs, now).store;
              var byAddress := IsAllowed(afterIp, EmailAddressKey(Coerce(email)), maxAttempts, windowMs, now);
              && r.store == byAddress.store
              && (r.verdict.Proceed? <==> byAddress.allowed)
              && (!byAddress.allowed ==>
                    r == Limited(TooManyRequests("Too many email requests for this address. Please try again later.",
                                                 RetryAfter(windowMs)), afterIp))
  {
    var byIp := IsAllowed(store, EmailIpKey(ip), maxAttempts, windowMs, now);
    if !byIp.allowed then
      Limited(TooManyRequests("Too many email requests from this IP. Please try again later.", RetryAfter(windowMs)),
              byIp.store)
    else if Present(email) then
      var byAddress := IsAllowed(byIp.store, EmailAddressKey(Coerce(email)), maxAttempts, windowMs, now);
      if !byAddress.allowed then
        Limited(TooManyRequests("Too many email requests for this address. Please try again later.", RetryAfter(windowMs)),
                byAddress.store)
      else
        Limited(Proceed, byAddress.store)
    else
      Limited(Proceed, byIp.store)
  }

  /** The client-address and address counters never share a key. */
  lemma EmailKeysAreDisjoint(ip: string, email: string)
    ensures EmailIpKey(ip) != EmailAddressKey(email)
  {
    assert EmailIpKey(ip)[6] == 'i' && EmailAddressKey(email)[6] == 'a';
  }

  /**
   * When the client address passes but the address is refused, the client
   * address's call was still counted.
   */
  lemma RefusedAddressStillCountsAgainstIp(
    store: Store, ip: string, email: Field, maxAttempts: int, windowMs: int, now: int
  )
    requires Present(email)
    requires IsAllowed(store, EmailIpKey(ip), maxAttempts, windowMs, now).allowed
    ensures var r := EmailLimiter(store, ip, email, maxAttempts, windowMs, now);
            r.verdict.TooManyRequests? ==>
              r.store[EmailIpKey(ip)] == IsAllowed(store, EmailIpKey(ip), maxAttempts, windowMs, now).store[EmailIpKey(ip)]
  {
    EmailKeysAreDisjoint(ip, Coerce(email));
  }
}
