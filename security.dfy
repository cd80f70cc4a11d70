/** Login lockout and rate limiting for the admin panel
    (portal/security.py), over a cache modelled as a map from keys to
    values with expiry times, read and written at an explicit clock
    `now` (seconds, as `time.time()` gives them). A cache entry is live
    while `now` is before its expiry. An absent IP address is the empty
    string, which Python treats as falsy as well. */
module Security {
  import opened Wrappers
  import opened Strs
  import opened Sanitize
  import PortalUtils

  const MaxLoginAttempts: int := 5
  const LockoutDuration: int := 900
  const RateLimitWindow: int := 60
  const MaxRequestsPerWindow: int := 10

  /** What the module stores: a counter, or a lockout record
      `(lockout_time, attempts)`. */
  datatype CacheValue = Count(n: int) | Lockout(at: real, attempts: int)

  datatype CacheEntry = CacheEntry(value: CacheValue, expires: real)

  type Store = map<string, CacheEntry>

  function UserLockoutKey(username: string): string { "login_lockout_" + username }
  function IpLockoutKey(ip: string): string { "login_lockout_ip_" + ip }
  function UserAttemptsKey(username: string): string { "login_attempts_" + username }
  function IpAttemptsKey(ip: string): string { "login_attempts_ip_" + ip }
  function RateKey(identifier: string): string { "rate_limit_" + identifier }

  /** `cache.get(key)`: the value of a live entry. */
  function Get(m: Store, key: string, now: real): (r: Option<CacheValue>)
    ensures r.Some? <==> key in m && now < m[key].expires
    ensures r.Some? ==> r.value == m[key].value
  {
    if key in m && now < m[key].expires then Some(m[key].value) else None
  }

  /** `cache.get(key, 0)` for a counter. */
  function CountAt(m: Store, key: string, now: real): int
  {
    match Get(m, key, now)
    case Some(Count(n)) => n
    case _ => 0
  }

  /** `cache.set(key, value, ttl)`. */
  function Put(m: Store, key: string, v: CacheValue, now: real, ttl: int): Store
  {
    m[key := CacheEntry(v, now + ttl as real)]
  }

  // ---------------------------------------------------------------------
  // is_account_locked

  datatype LockStatus = LockStatus(locked: bool, remaining: int, key: Option<string>)

  /** The seconds left on a lockout stored under `key`, if it is live and
      younger than the lockout duration: `int(LOCKOUT_DURATION -
      elapsed)`, which truncates a positive number down. */
  function LockedBy(m: Store, key: string, now: real): (r: Option<int>)
    ensures r.Some? ==> key in m && m[key].value.Lockout? && now - m[key].value.at < LockoutDuration as real
    ensures r.Some? ==> r.value == (LockoutDuration as real - (now - m[key].value.at)).Floor
  {
    match Get(m, key, now)
    case Some(Lockout(at, _)) =>
      if now - at < LockoutDuration as real then Some((LockoutDuration as real - (now - at)).Floor) else None
    case _ => None
  }

  /** is_account_locked: the username's lockout first, then the IP's. */
  function AccountLock(m: Store, username: string, ip: string, now: real): (r: LockStatus)
    ensures !r.locked ==> r == LockStatus(false, 0, None)
  {
    var byUser := LockedBy(m, UserLockoutKey(username), now);
    if byUser.Some? then LockStatus(true, byUser.value, Some(UserLockoutKey(username)))
    else
      var byIp := if ip != "" then LockedBy(m, IpLockoutKey(ip), now) else None;
      if byIp.Some? then LockStatus(true, byIp.value, Some(IpLockoutKey(ip)))
      else LockStatus(false, 0, None)
  }

  /** locked iff a live lockout record younger than 900 seconds is found
      under the username's key, or under the IP's when one is given; the
      username's record wins. */
  lemma AccountLockIff(m: Store, username: string, ip: string, now: real)
    ensures AccountLock(m, username, ip, now).locked <==>
      (LockedBy(m, UserLockoutKey(username), now).Some? || (ip != "" && LockedBy(m, IpLockoutKey(ip), now).Some?))
    ensures LockedBy(m, UserLockoutKey(username), now).Some? ==>
      AccountLock(m, username, ip, now) == LockStatus(true, LockedBy(m, UserLockoutKey(username), now).value, Some(UserLockoutKey(username)))
    ensures LockedBy(m, UserLockoutKey(username), now).None? && ip != "" && LockedBy(m, IpLockoutKey(ip), now).Some? ==>
      AccountLock(m, username, ip, now) == LockStatus(true, LockedBy(m, IpLockoutKey(ip), now).value, Some(IpLockoutKey(ip)))
  {
  }

  /** The time left is never negative, and at most 900 seconds unless the
      record was written in the future of `now`. */
  lemma RemainingBounds(m: Store, key: string, now: real)
    requires LockedBy(m, key, now).Some?
    ensures LockedBy(m, key, now).value >= 0
    ensures m[key].value.at <= now ==> LockedBy(m, key, now).value <= LockoutDuration
  {
  }

  // ---------------------------------------------------------------------
  // record_failed_login

  /** The attempt number this failure makes. */
  function Attempts(m: Store, username: string, now: real): int
  {
    CountAt(m, UserAttemptsKey(username), now) + 1
  }

  /** The cache after record_failed_login: at the threshold a lockout
      record replaces the counter, otherwise the counter is stored. The IP
      argument plays no part: the code that would track it follows two
      returns. */
  function AfterFailure(m: Store, username: string, now: real): Store
  {
    var attempts := Attempts(m, username, now);
    if attempts >= MaxLoginAttempts then
      Put(m, UserLockoutKey(username), Lockout(now, attempts), now, LockoutDuration) - {UserAttemptsKey(username)}
    else
      Put(m, UserAttemptsKey(username), Count(attempts), now, LockoutDuration)
  }

  /** What record_failed_login returns: (is_locked, remaining). */
  function FailureResult(m: Store, username: string, now: real): (bool, int)
  {
    if Attempts(m, username, now) >= MaxLoginAttempts then (true, LockoutDuration) else (false, 0)
  }

  lemma AttemptsNotLockout(username: string, v: string)
    ensures UserAttemptsKey(username) != UserLockoutKey(v)
  {
    assert UserAttemptsKey(username)[6] == 'a';
    assert UserLockoutKey(v)[6] == 'l';
  }

  /** The two outcomes of a failed login, and that no other key changes. */
  lemma FailureEffect(m: Store, username: string, now: real)
    ensures var attempts := Attempts(m, username, now);
      var m' := AfterFailure(m, username, now);
      (attempts >= MaxLoginAttempts ==>
        FailureResult(m, username, now) == (true, 900)
        && m'[UserLockoutKey(username)] == CacheEntry(Lockout(now, attempts), now + 900.0)
        && UserAttemptsKey(username) !in m')
      && (attempts < MaxLoginAttempts ==>
        FailureResult(m, username, now) == (false, 0)
        && m'[UserAttemptsKey(username)] == CacheEntry(Count(attempts), now + 900.0)
        && (UserLockoutKey(username) in m' <==> UserLockoutKey(username) in m)
        && (UserLockoutKey(username) in m ==> m'[UserLockoutKey(username)] == m[UserLockoutKey(username)]))
    ensures forall k :: k != UserAttemptsKey(username) && k != UserLockoutKey(username) ==>
      (k in AfterFailure(m, username, now) <==> k in m)
      && (k in m ==> AfterFailure(m, username, now)[k] == m[k])
  {
    AttemptsNotLockout(username, username);
  }

  lemma PrefixInjective(p: string, u: string, v: string)
    ensures p + u == p + v ==> u == v
  {
    if p + u == p + v {
      assert u == (p + u)[|p|..];
      assert v == (p + v)[|p|..];
    }
  }

  lemma IpKeysDiffer(username: string, ip: string)
    requires username != "ip_" + ip
    ensures UserAttemptsKey(username) != IpAttemptsKey(ip) && UserLockoutKey(username) != IpLockoutKey(ip)
    ensures UserLockoutKey(username) != IpAttemptsKey(ip) && UserAttemptsKey(username) != IpLockoutKey(ip)
  {
    assert IpAttemptsKey(ip) == UserAttemptsKey("ip_" + ip);
    assert IpLockoutKey(ip) == UserLockoutKey("ip_" + ip);
    PrefixInjective("login_attempts_", username, "ip_" + ip);
    PrefixInjective("login_lockout_", username, "ip_" + ip);
    AttemptsNotLockout(username, "ip_" + ip);
    AttemptsNotLockout("ip_" + ip, username);
  }

  /** record_failed_login never writes an IP key of its own: the keys of
      any IP are as they were, unless the username is that IP's name with
      the prefix `ip_`, whose keys the IP shares. */
  lemma FailureLeavesIpKeys(m: Store, username: string, ip: string, now: real)
    requires username != "ip_" + ip
    ensures var m' := AfterFailure(m, username, now);
      (IpAttemptsKey(ip) in m' <==> IpAttemptsKey(ip) in m)
      && (IpAttemptsKey(ip) in m ==> m'[IpAttemptsKey(ip)] == m[IpAttemptsKey(ip)])
      && (IpLockoutKey(ip) in m' <==> IpLockoutKey(ip) in m)
      && (IpLockoutKey(ip) in m ==> m'[IpLockoutKey(ip)] == m[IpLockoutKey(ip)])
  {
    IpKeysDiffer(username, ip);
    FailureEffect(m, username, now);
  }

  /** The shared keys: five failures of the username "ip_10.0.0.1" lock
      every login that comes from the IP 10.0.0.1. */
  lemma UsernameShadowsIp(ip: string)
    ensures UserLockoutKey("ip_" + ip) == IpLockoutKey(ip)
    ensures UserAttemptsKey("ip_" + ip) == IpAttemptsKey(ip)
  {
  }

  /** A lockout just recorded is reported by is_account_locked for the
      next 900 seconds, under the username's key, with the time left
      counting down from 900. */
  lemma LockThenCheck(m: Store, username: string, ip: string, t: real, now: real)
    requires FailureResult(m, username, t).0
    requires t <= now < t + 900.0
    ensures AccountLock(AfterFailure(m, username, t), username, ip, now)
      == LockStatus(true, (900.0 - (now - t)).Floor, Some(UserLockoutKey(username)))
    ensures now == t ==> AccountLock(AfterFailure(m, username, t), username, ip, now).remaining == 900
  {
    FailureEffect(m, username, t);
  }

  /** Failures at the given clock readings, one after another. */
  function Failures(m: Store, username: string, times: seq<real>): Store
    decreases |times|
  {
    if times == [] then m else Failures(AfterFailure(m, username, times[0]), username, times[1..])
  }

  /** Each reading no earlier than the last and within its 900 seconds, so
      the counter never expires in between. */
  predicate Paced(times: seq<real>)
    decreases |times|
  {
    |times| <= 1 || (times[0] <= times[1] < times[0] + 900.0 && Paced(times[1..]))
  }

  lemma {:induction false} PacedPrefix(times: seq<real>, k: nat)
    requires Paced(times) && k <= |times|
    ensures Paced(times[..k])
    decreases k
  {
    if k > 1 {
      PacedPrefix(times[1..], k - 1);
      assert times[..k][1..] == times[1..][..k - 1];
    }
  }

  lemma {:induction false} PacedStep(times: seq<real>, i: nat)
    requires Paced(times) && 0 < i < |times|
    ensures times[i - 1] <= times[i] < times[i - 1] + 900.0
    decreases i
  {
    if i > 1 {
      PacedStep(times[1..], i - 1);
    }
  }

  lemma {:induction false} FailuresSnoc(m: Store, username: string, times: seq<real>, t: real)
    ensures Failures(m, username, times + [t]) == AfterFailure(Failures(m, username, times), username, t)
    decreases |times|
  {
    if times != [] {
      assert (times + [t])[1..] == times[1..] + [t];
      FailuresSnoc(AfterFailure(m, username, times[0]), username, times[1..], t);
    }
  }

  lemma StoredCountRead(m: Store, key: string, n: int, t: real, now: real)
    requires key in m && m[key] == CacheEntry(Count(n), t + 900.0)
    requires now < t + 900.0
    ensures CountAt(m, key, now) == n
  {
  }

  /** Failures in quick succession count up: starting from a counter `n`,
      each one stores the next number, with a fresh 900-second expiry. */
  lemma {:induction false} FailuresCount(m: Store, username: string, times: seq<real>, n: int)
    requires times != [] && Paced(times)
    requires CountAt(m, UserAttemptsKey(username), times[0]) == n
    requires n + |times| < MaxLoginAttempts
    ensures UserAttemptsKey(username) in Failures(m, username, times)
    ensures Failures(m, username, times)[UserAttemptsKey(username)] == CacheEntry(Count(n + |times|), times[|times| - 1] + 900.0)
    decreases |times|
  {
    var m1 := AfterFailure(m, username, times[0]);
    FailureEffect(m, username, times[0]);
    if |times| > 1 {
      StoredCountRead(m1, UserAttemptsKey(username), n + 1, times[0], times[1]);
      FailuresCount(m1, username, times[1..], n + 1);
    }
  }

  /** Five failures in quick succession with no counter to start from:
      the fifth locks the account, for the full 900 seconds. */
  lemma FifthFailureLocks(m: Store, username: string, ip: string, times: seq<real>)
    requires |times| == 5 && Paced(times)
    requires CountAt(m, UserAttemptsKey(username), times[0]) == 0
    ensures FailureResult(Failures(m, username, times[..4]), username, times[4]) == (true, 900)
    ensures AccountLock(Failures(m, username, times), username, ip, times[4]) == LockStatus(true, 900, Some(UserLockoutKey(username)))
  {
    var first := times[..4];
    PacedPrefix(times, 4);
    FailuresCount(m, username, first, 0);
    var m4 := Failures(m, username, first);
    PacedStep(times, 4);
    StoredCountRead(m4, UserAttemptsKey(username), 4, times[3], times[4]);
    assert times == first + [times[4]];
    FailuresSnoc(m, username, first, times[4]);
    LockThenCheck(m4, username, ip, times[4], times[4]);
  }

  // ---------------------------------------------------------------------
  // The address block of record_failed_login

  /** Failures of several usernames at one moment, as written. */
  function FailuresOf(m: Store, usernames: seq<string>, now: real): Store
    decreases |usernames|
  {
    if usernames == [] then m
    else AfterFailure(FailuresOf(m, usernames[..|usernames| - 1], now), usernames[|usernames| - 1], now)
  }

  /** As written, no number of failed logins from an address ever changes
      whether that address is locked: only a username that shares the
      address's keys could. */
  lemma {:induction false} IpNeverLockedAsWritten(m: Store, usernames: seq<string>, ip: string, now: real, t: real)
    requires forall k :: 0 <= k < |usernames| ==> usernames[k] != "ip_" + ip
    ensures LockedBy(FailuresOf(m, usernames, now), IpLockoutKey(ip), t) == LockedBy(m, IpLockoutKey(ip), t)
  {
    if usernames != [] {
      var before := FailuresOf(m, usernames[..|usernames| - 1], now);
      IpNeverLockedAsWritten(m, usernames[..|usernames| - 1], ip, now, t);
      FailureLeavesIpKeys(before, usernames[|usernames| - 1], ip, now);
    }
  }

  /** record_failed_login with the address block reachable: a failure that
      does not lock the username goes on to count the address, and locks
      it at the fifth attempt. */
  function AfterFailureTracked(m: Store, username: string, ip: string, now: real): Store
  {
    var m1 := AfterFailure(m, username, now);
    if Attempts(m, username, now) >= MaxLoginAttempts || ip == "" then m1
    else
      var ipAttempts := CountAt(m1, IpAttemptsKey(ip), now) + 1;
      if ipAttempts >= MaxLoginAttempts then
        Put(m1, IpLockoutKey(ip), Lockout(now, ipAttempts), now, LockoutDuration) - {IpAttemptsKey(ip)}
      else
        Put(m1, IpAttemptsKey(ip), Count(ipAttempts), now, LockoutDuration)
  }

  function FailureTrackedResult(m: Store, username: string, ip: string, now: real): (bool, int)
  {
    if Attempts(m, username, now) >= MaxLoginAttempts then (true, LockoutDuration)
    else if ip != "" && CountAt(AfterFailure(m, username, now), IpAttemptsKey(ip), now) + 1 >= MaxLoginAttempts then
      (true, LockoutDuration)
    else (false, 0)
  }

  /** Below the address threshold, the address counter goes up by one and
      the failure reports no lock. */
  lemma TrackedIpCounts(m: Store, username: string, ip: string, now: real)
    requires ip != "" && username != "ip_" + ip
    requires Attempts(m, username, now) < MaxLoginAttempts
    requires CountAt(m, IpAttemptsKey(ip), now) + 1 < MaxLoginAttempts
    ensures FailureTrackedResult(m, username, ip, now) == (false, 0)
    ensures var m' := AfterFailureTracked(m, username, ip, now);
      IpAttemptsKey(ip) in m' && m'[IpAttemptsKey(ip)] == CacheEntry(Count(CountAt(m, IpAttemptsKey(ip), now) + 1), now + 900.0)
  {
    IpKeysDiffer(username, ip);
    FailureEffect(m, username, now);
    assert CountAt(AfterFailure(m, username, now), IpAttemptsKey(ip), now) == CountAt(m, IpAttemptsKey(ip), now);
  }

  /** The failure that brings the address to five attempts locks the
      address for every username that logs in from it. */
  lemma TrackedIpLocks(m: Store, username: string, ip: string, now: real)
    requires ip != "" && username != "ip_" + ip
    requires Attempts(m, username, now) < MaxLoginAttempts
    requires CountAt(m, IpAttemptsKey(ip), now) + 1 >= MaxLoginAttempts
    ensures FailureTrackedResult(m, username, ip, now) == (true, 900)
    ensures forall u :: AccountLock(AfterFailureTracked(m, username, ip, now), u, ip, now).locked
  {
    IpKeysDiffer(username, ip);
    FailureEffect(m, username, now);
    var m1 := AfterFailure(m, username, now);
    assert CountAt(m1, IpAttemptsKey(ip), now) == CountAt(m, IpAttemptsKey(ip), now);
    var m' := AfterFailureTracked(m, username, ip, now);
    assert m'[IpLockoutKey(ip)] == CacheEntry(Lockout(now, CountAt(m, IpAttemptsKey(ip), now) + 1), now + 900.0);
    assert LockedBy(m', IpLockoutKey(ip), now).Some?;
    forall u
      ensures AccountLock(m', u, ip, now).locked
    {
      AccountLockIff(m', u, ip, now);
    }
  }

  // ---------------------------------------------------------------------
  // clear_login_attempts

  function ClearedKeys(username: string, ip: string): set<string>
  {
    {UserAttemptsKey(username), UserLockoutKey(username)}
    + (if ip != "" then {IpAttemptsKey(ip), IpLockoutKey(ip)} else {})
  }

  function AfterClear(m: Store, username: string, ip: string): Store
  {
    m - ClearedKeys(username, ip)
  }

  /** After a successful login the account is unlocked and the count
      starts over, for the username and for the IP given with it; other
      keys stay as they were. */
  lemma ClearUnlocks(m: Store, username: string, ip: string, now: real)
    ensures AccountLock(AfterClear(m, username, ip), username, ip, now) == LockStatus(false, 0, None)
    ensures Attempts(AfterClear(m, username, ip), username, now) == 1
    ensures forall k :: k !in ClearedKeys(username, ip) ==>
      (k in AfterClear(m, username, ip) <==> k in m) && (k in m ==> AfterClear(m, username, ip)[k] == m[k])
  {
  }

  // ---------------------------------------------------------------------
  // check_rate_limit

  /** (is_allowed, remaining_requests, reset_time). */
  datatype RateDecision = RateDecision(allowed: bool, remaining: int, reset: int)

  /** check_rate_limit. `ttl` is what the cache backend reports as the
      counter's time to live; 0 stands for a backend that reports none. */
  function RateCheck(m: Store, identifier: string, maxRequests: int, window: int, ttl: int, now: real): (d: RateDecision)
    ensures d.allowed <==> CountAt(m, RateKey(identifier), now) < maxRequests
  {
    var current := CountAt(m, RateKey(identifier), now);
    if current >= maxRequests then RateDecision(false, 0, if ttl != 0 then ttl else window)
    else RateDecision(true, maxRequests - current - 1, window)
  }

  function AfterRateCheck(m: Store, identifier: string, maxRequests: int, window: int, now: real): Store
  {
    var current := CountAt(m, RateKey(identifier), now);
    if current >= maxRequests then m
    else Put(m, RateKey(identifier), Count(current + 1), now, window)
  }

  /** A refused request leaves the counter alone and promises no more
      requests; an allowed one counts itself and reports how many are
      left, never a negative number. */
  lemma RateCheckEffect(m: Store, identifier: string, maxRequests: int, window: int, ttl: int, now: real)
    ensures var current := CountAt(m, RateKey(identifier), now);
      var d := RateCheck(m, identifier, maxRequests, window, ttl, now);
      var m' := AfterRateCheck(m, identifier, maxRequests, window, now);
      (!d.allowed ==> m' == m && d.remaining == 0 && d.reset == (if ttl != 0 then ttl else window))
      && (d.allowed ==>
        d.remaining == maxRequests - current - 1 && d.remaining >= 0 && d.reset == window
        && m' == m[RateKey(identifier) := CacheEntry(Count(current + 1), now + window as real)])
  {
  }

  /** The counter never passes the limit: a count at most `maxRequests`
      stays so, read at any later time. */
  lemma RateCountCapped(m: Store, identifier: string, maxRequests: int, window: int, now: real, later: real)
    requires maxRequests >= 0
    requires CountAt(m, RateKey(identifier), now) <= maxRequests
    requires now <= later
    requires Get(m, RateKey(identifier), later).Some? ==> Get(m, RateKey(identifier), now).Some?
    ensures CountAt(AfterRateCheck(m, identifier, maxRequests, window, now), RateKey(identifier), later) <= maxRequests
  {
  }

  /** Calls at the given clock readings, one after another. */
  function RateCalls(m: Store, identifier: string, maxRequests: int, window: int, times: seq<real>): Store
    decreases |times|
  {
    if times == [] then m
    else RateCalls(AfterRateCheck(m, identifier, maxRequests, window, times[0]), identifier, maxRequests, window, times[1..])
  }

  /** How many of those calls are allowed. */
  function AllowedCalls(m: Store, identifier: string, maxRequests: int, window: int, times: seq<real>): nat
    decreases |times|
  {
    if times == [] then 0
    else
      var d := RateCheck(m, identifier, maxRequests, window, 0, times[0]);
      (if d.allowed then 1 else 0)
      + AllowedCalls(AfterRateCheck(m, identifier, maxRequests, window, times[0]), identifier, maxRequests, window, times[1..])
  }

  function Min(a: int, b: int): int
  {
    if a <= b then a else b
  }

  /** Calls within one window, all reading the same counter `n` before
      the first of them: exactly `maxRequests - n` of them are allowed
      (or all, if there are fewer), and the rest refused. */
  lemma {:induction false} WindowAllowsExactly(m: Store, identifier: string, maxRequests: int, window: int, times: seq<real>, start: real, n: int)
    requires forall i :: 0 <= i < |times| ==> start <= times[i] < start + window as real
    requires forall i :: 0 <= i < |times| ==> CountAt(m, RateKey(identifier), times[i]) == n
    ensures AllowedCalls(m, identifier, maxRequests, window, times) == Min(|times|, if maxRequests > n then maxRequests - n else 0)
    decreases |times|
  {
    if times != [] {
      var key := RateKey(identifier);
      var m' := AfterRateCheck(m, identifier, maxRequests, window, times[0]);
      var rest := times[1..];
      assert forall i :: 0 <= i < |rest| ==> start <= rest[i] < start + window as real by {
        forall i | 0 <= i < |rest| ensures start <= rest[i] < start + window as real {
          assert rest[i] == times[i + 1];
        }
      }
      if n < maxRequests {
        assert m' == Put(m, key, Count(n + 1), times[0], window);
        forall i | 0 <= i < |rest| ensures CountAt(m', key, rest[i]) == n + 1 {
          assert rest[i] == times[i + 1];
        }
        WindowAllowsExactly(m', identifier, maxRequests, window, rest, start, n + 1);
      } else {
        forall i | 0 <= i < |rest| ensures CountAt(m', key, rest[i]) == n {
          assert rest[i] == times[i + 1];
        }
        WindowAllowsExactly(m', identifier, maxRequests, window, rest, start, n);
      }
    }
  }

  /** So with no live counter, calls within one window get at most
      `maxRequests` allowances. */
  lemma FreshWindowCapped(m: Store, identifier: string, maxRequests: int, window: int, times: seq<real>, start: real)
    requires maxRequests >= 0
    requires RateKey(identifier) !in m
    requires forall i :: 0 <= i < |times| ==> start <= times[i] < start + window as real
    ensures AllowedCalls(m, identifier, maxRequests, window, times) == Min(|times|, maxRequests)
  {
    WindowAllowsExactly(m, identifier, maxRequests, window, times, start, 0);
  }

  // ---------------------------------------------------------------------
  // get_client_ip and sanitize_input

  /** get_client_ip: the first element of X-Forwarded-For, stripped, when
      the header is set and non-empty; else REMOTE_ADDR; else
      '0.0.0.0'. */
  function GetClientIp(forwardedFor: string, remoteAddr: Option<string>): string
  {
    if forwardedFor != "" then PyStrip(Split(forwardedFor, ',')[0])
    else if remoteAddr.Some? then remoteAddr.value
    else "0.0.0.0"
  }

  /** The address taken from the header is a comma-free, stripped part of
      it: the text before the first comma. */
  lemma ClientIpFromHeader(forwardedFor: string, remoteAddr: Option<string>)
    requires forwardedFor != ""
    ensures GetClientIp(forwardedFor, remoteAddr) == PyStrip(Before(forwardedFor, ','))
    ensures ',' !in GetClientIp(forwardedFor, remoteAddr)
    ensures Contains(forwardedFor, GetClientIp(forwardedFor, remoteAddr))
  {
    var head := Before(forwardedFor, ',');
    assert Split(forwardedFor, ',')[0] == head;
    var r := PyStrip(head);
    assert OccursAt(forwardedFor, head, 0);
    ContainsTrans(forwardedFor, head, r);
    TrimByChars(head, IsPySpace);
  }

  /** The Python values sanitize_input is given: None, a number or a
      boolean, a string, or another object, here represented by its
      `str()`. */
  datatype PyValue = PyNone | PyInt(i: int) | PyFloat(f: real) | PyBool(b: bool) | PyStr(s: string) | PyObject(str: string)

  /** sanitize_input: None stays None, numbers and booleans pass through,
      and anything else becomes its string, cleaned. */
  function SanitizeValue(value: PyValue, maxLength: nat): (r: PyValue)
    ensures value.PyNone? ==> r.PyNone?
    ensures value.PyInt? || value.PyFloat? || value.PyBool? ==> r == value
    ensures value.PyStr? || value.PyObject? ==> r.PyStr?
  {
    match value
    case PyNone => PyNone
    case PyInt(_) => value
    case PyFloat(_) => value
    case PyBool(_) => value
    case PyStr(s) => PyStr(Cleaned(s, IsPySpace, maxLength))
    case PyObject(s) => PyStr(Cleaned(s, IsPySpace, maxLength))
  }

  /** On strings it agrees with the portal's other sanitize_input, whose
      early return for the empty string changes nothing. */
  lemma SanitizeValueAgrees(s: string, maxLength: nat)
    ensures SanitizeValue(PyStr(s), maxLength) == PyStr(PortalUtils.SanitizeInput(s, maxLength))
  {
    if s == "" {
      assert RemoveChars(s, IsControl) == "";
    }
  }

  // ---------------------------------------------------------------------
  // the cache

  /** Which keys hold lockout records. */
  predicate IsLockoutKey(k: string)
  {
    StartsWith(k, "login_lockout_")
  }

  /** Every lockout record is under a lockout key and every counter is
      not, so reading a counter never meets a tuple. */
  predicate Typed(m: Store)
  {
    forall k :: k in m ==> (m[k].value.Lockout? <==> IsLockoutKey(k))
  }

  lemma KeyFamilies(username: string, identifier: string)
    ensures IsLockoutKey(UserLockoutKey(username))
    ensures !IsLockoutKey(UserAttemptsKey(username))
    ensures !IsLockoutKey(RateKey(identifier))
  {
    assert UserLockoutKey(username)[..14] == "login_lockout_";
    assert UserAttemptsKey(username)[6] == 'a';
    assert RateKey(identifier)[0] == 'r';
  }

  lemma FailureKeepsTyped(m: Store, username: string, now: real)
    requires Typed(m)
    ensures Typed(AfterFailure(m, username, now))
  {
    KeyFamilies(username, "");
  }

  lemma RateCheckKeepsTyped(m: Store, identifier: string, maxRequests: int, window: int, now: real)
    requires Typed(m)
    ensures Typed(AfterRateCheck(m, identifier, maxRequests, window, now))
  {
    KeyFamilies("", identifier);
  }

  class Cache {
    var entries: Store

    predicate Valid()
      reads this
    {
      Typed(entries)
    }

    constructor ()
      ensures entries == map[] && Valid()
    {
      entries := map[];
    }

    /** `cache.set`; it keeps `Valid()` when the value has its key
        family's type. */
    method Set(key: string, v: CacheValue, now: real, ttl: int)
      modifies this
      ensures entries == Put(old(entries), key, v, now, ttl)
      ensures old(Valid()) && (v.Lockout? <==> IsLockoutKey(key)) ==> Valid()
    {
      entries := entries[key := CacheEntry(v, now + ttl as real)];
    }

    method Delete(key: string)
      modifies this
      ensures entries == old(entries) - {key}
      ensures old(Valid()) ==> Valid()
    {
      entries := entries - {key};
    }

    /** Needs `Valid()`: Python unpacks a lockout entry as a
        (time, attempts) tuple. */
    method IsAccountLocked(username: string, ip: string, now: real) returns (r: LockStatus)
      requires Valid()
      ensures r == AccountLock(entries, username, ip, now)
    {
      var userKey := UserLockoutKey(username);
      var data := Get(entries, userKey, now);
      if data.Some? && data.value.Lockout? {
        var elapsed := now - data.value.at;
        if elapsed < LockoutDuration as real {
          return LockStatus(true, (LockoutDuration as real - elapsed).Floor, Some(userKey));
        }
      }
      if ip != "" {
        var ipKey := IpLockoutKey(ip);
        var ipData := Get(entries, ipKey, now);
        if ipData.Some? && ipData.value.Lockout? {
          var elapsed := now - ipData.value.at;
          if elapsed < LockoutDuration as real {
            return LockStatus(true, (LockoutDuration as real - elapsed).Floor, Some(ipKey));
          }
        }
      }
      return LockStatus(false, 0, None);
    }

    method RecordFailedLogin(username: string, ip: string, now: real) returns (locked: bool, remaining: int)
      requires Valid()
      modifies this
      ensures Valid()
      ensures (locked, remaining) == FailureResult(old(entries), username, now)
      ensures entries == AfterFailure(old(entries), username, now)
    {
      FailureKeepsTyped(entries, username, now);
      var key := UserAttemptsKey(username);
      var attempts := CountAt(entries, key, now) + 1;
      if attempts >= MaxLoginAttempts {
        Set(UserLockoutKey(username), Lockout(now, attempts), now, LockoutDuration);
        Delete(key);
        return true, LockoutDuration;
      } else {
        Set(key, Count(attempts), now, LockoutDuration);
        return false, 0;
      }
    }

    method ClearLoginAttempts(username: string, ip: string)
      requires Valid()
      modifies this
      ensures Valid()
      ensures entries == AfterClear(old(entries), username, ip)
    {
      ghost var before := entries;
      var userKeys := {UserAttemptsKey(username), UserLockoutKey(username)};
      Delete(UserAttemptsKey(username));
      Delete(UserLockoutKey(username));
      assert entries == before - userKeys;
      if ip != "" {
        Delete(IpAttemptsKey(ip));
        Delete(IpLockoutKey(ip));
        assert entries == before - (userKeys + {IpAttemptsKey(ip), IpLockoutKey(ip)});
      }
    }

    method CheckRateLimit(identifier: string, maxRequests: int, window: int, ttl: int, now: real) returns (d: RateDecision)
      requires Valid()
      modifies this
      ensures Valid()
      ensures d == RateCheck(old(entries), identifier, maxRequests, window, ttl, now)
      ensures entries == AfterRateCheck(old(entries), identifier, maxRequests, window, now)
    {
      RateCheckKeepsTyped(entries, identifier, maxRequests, window, now);
      var key := RateKey(identifier);
      var current := CountAt(entries, key, now);
      if current >= maxRequests {
        return RateDecision(false, 0, if ttl != 0 then ttl else window);
      }
      Set(key, Count(current + 1), now, window);
      return RateDecision(true, maxRequests - current - 1, window);
    }
  }
}
