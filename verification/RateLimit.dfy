/** The in-memory sliding-window limiter and failure lockout (app/rate_limit.py).

Both keep one log of times per key and forget whatever has left the window each time the
key is touched. Clock readings are parameters. */
module RateLimit {
  import opened Text

  const FAILURE_WINDOW_SECONDS := 900.0
  const MAX_FAILURES := 10

  type Logs = map<string, seq<real>>

  /** The times still inside the window that ends now. */
  function Recent(log: seq<real>, now: real, window: real): seq<real> {
    if log == [] then []
    else
      var rest := Recent(log[..|log| - 1], now, window);
      var t := log[|log| - 1];
      if now - t < window then rest + [t] else rest
  }

  /** Reading a key that is not there gives the empty log. */
  function LogOf(logs: Logs, key: string): seq<real> {
    if key in logs then logs[key] else []
  }

  function Pruned(logs: Logs, key: string, now: real, window: real): Logs {
    logs[key := Recent(LogOf(logs, key), now, window)]
  }

  class Limiter {
    var failureLog: Logs
    var hitLog: Logs

    constructor ()
      ensures failureLog == map[] && hitLog == map[]
    {
      failureLog, hitLog := map[], map[];
    }

    method Prune(key: string, now: real) returns (recent: seq<real>)
      modifies this`failureLog
      ensures recent == Recent(LogOf(old(failureLog), key), now, FAILURE_WINDOW_SECONDS)
      ensures failureLog == Pruned(old(failureLog), key, now, FAILURE_WINDOW_SECONDS)
    {
      recent := Recent(LogOf(failureLog, key), now, FAILURE_WINDOW_SECONDS);
      failureLog := failureLog[key := recent];
    }

    method IsLockedOut(key: string, now: real) returns (locked: bool)
      modifies this`failureLog
      ensures failureLog == AfterAuth(old(failureLog), Check(key, now))
      ensures locked <==> |LogOf(failureLog, key)| >= MAX_FAILURES
    {
      var recent := Prune(key, now);
      locked := |recent| >= MAX_FAILURES;
    }

    method RecordFailure(key: string, now: real)
      modifies this`failureLog
      ensures failureLog == AfterAuth(old(failureLog), Failure(key, now))
    {
      var recent := Prune(key, now);
      failureLog := failureLog[key := failureLog[key] + [now]];
    }

    method Allow(key: string, limit: int, window: real, now: real) returns (allowed: bool)
      modifies this`hitLog
      ensures allowed <==> |Recent(LogOf(old(hitLog), key), now, window)| < limit
      ensures hitLog == AfterHit(old(hitLog), Hit(key, now), Policy(limit, window))
    {
      var recent := Recent(LogOf(hitLog, key), now, window);
      if |recent| >= limit {
        hitLog := hitLog[key := recent];
        return false;
      }
      recent := recent + [now];
      hitLog := hitLog[key := recent];
      return true;
    }
  }

  // ---------- whole runs of `allow` ----------

  datatype Policy = Policy(limit: int, window: real)

  datatype Hit = Hit(key: string, now: real)

  function AfterHit(logs: Logs, hit: Hit, policy: Policy): Logs {
    var recent := Recent(LogOf(logs, hit.key), hit.now, policy.window);
    logs[hit.key := if |recent| >= policy.limit then recent else recent + [hit.now]]
  }

  /** The pruned logs after a run of calls; each key keeps one policy. */
  function HitLogs(hits: seq<Hit>, policies: string -> Policy): Logs {
    if hits == [] then map[]
    else
      var hit := hits[|hits| - 1];
      AfterHit(HitLogs(hits[..|hits| - 1], policies), hit, policies(hit.key))
  }

  /** The full history: the time of every call for `key` that a limiter which forgets
      nothing lets through. */
  function Admitted(hits: seq<Hit>, policies: string -> Policy, key: string): seq<real> {
    if hits == [] then []
    else
      var hit := hits[|hits| - 1];
      var before := Admitted(hits[..|hits| - 1], policies, key);
      if hit.key == key && |Recent(before, hit.now, policies(key).window)| < policies(key).limit
      then before + [hit.now]
      else before
  }

  ghost predicate ClockForward(hits: seq<Hit>) {
    forall i, j :: 0 <= i < j < |hits| ==> hits[i].now <= hits[j].now
  }

  /** Forgetting early changes no later reading: the window only moves forward. */
  lemma {:induction false} RecentOfRecent(log: seq<real>, now: real, later: real, window: real)
    requires now <= later
    ensures Recent(Recent(log, now, window), later, window) == Recent(log, later, window)
  {
    if log != [] {
      var init, t := log[..|log| - 1], log[|log| - 1];
      RecentOfRecent(init, now, later, window);
      RecentSnoc(Recent(init, now, window), t, later, window);
    }
  }

  lemma RecentSnoc(log: seq<real>, t: real, now: real, window: real)
    ensures Recent(log + [t], now, window)
         == Recent(log, now, window) + (if now - t < window then [t] else [])
  {
  }

  /** Every time that has left the window by `now` is outside it at `later` as well. */
  ghost predicate NothingReturns(log: seq<real>, now: real, later: real, window: real) {
    forall t :: t in log && now - t >= window ==> later - t >= window
  }

  lemma NothingReturnsSnoc(log: seq<real>, t: real, now: real, later: real, window: real)
    ensures NothingReturns(log + [t], now, later, window)
       <==> NothingReturns(log, now, later, window) && (now - t >= window ==> later - t >= window)
  {
    assert t in log + [t];
    forall x | x in log
      ensures x in log + [t]
    {
    }
  }

  /** Exactly then forgetting at `now` leaves the reading at `later` as it is. */
  lemma {:induction false} ForgettingShows(log: seq<real>, now: real, later: real, window: real)
    ensures |Recent(Recent(log, now, window), later, window)| <= |Recent(log, later, window)|
    ensures |Recent(Recent(log, now, window), later, window)| == |Recent(log, later, window)|
       <==> Recent(Recent(log, now, window), later, window) == Recent(log, later, window)
    ensures Recent(Recent(log, now, window), later, window) == Recent(log, later, window)
       <==> NothingReturns(log, now, later, window)
  {
    if log != [] {
      var init, t := log[..|log| - 1], log[|log| - 1];
      ForgettingShows(init, now, later, window);
      RecentSnoc(Recent(init, now, window), t, later, window);
      assert log == init + [t];
      NothingReturnsSnoc(init, t, now, later, window);
      Longer(Recent(Recent(init, now, window), later, window), Recent(init, later, window), t);
    }
  }

  lemma Longer(a: seq<real>, b: seq<real>, t: real)
    requires |a| <= |b|
    ensures a + [t] == b + [t] <==> a == b
    ensures a != b + [t]
  {
    if a + [t] == b + [t] {
      assert a == (a + [t])[..|a|] && b == (b + [t])[..|b|];
    }
  }

  /** So no log at all is read differently if and only if the clock has not stepped back. */
  lemma ClockConditionExactly(now: real, later: real, window: real)
    ensures (forall log :: Recent(Recent(log, now, window), later, window) == Recent(log, later, window))
       <==> now <= later
  {
    if now <= later {
      forall log
        ensures Recent(Recent(log, now, window), later, window) == Recent(log, later, window)
      {
        RecentOfRecent(log, now, later, window);
      }
    } else {
      var log := [now - window];
      ForgettingShows(log, now, later, window);
      assert log[0] in log;
    }
  }

  /** Seen from any later time, the pruned log of a key is its full history. */
  lemma {:induction false} PrunedLogIsEnough(hits: seq<Hit>, policies: string -> Policy, key: string, later: real)
    requires ClockForward(hits)
    requires hits != [] ==> hits[|hits| - 1].now <= later
    ensures Recent(LogOf(HitLogs(hits, policies), key), later, policies(key).window)
         == Recent(Admitted(hits, policies, key), later, policies(key).window)
  {
    if hits != [] {
      var init, hit := hits[..|hits| - 1], hits[|hits| - 1];
      PrunedLogIsEnough(init, policies, key, later);
      if hit.key == key {
        var w := policies(key).window;
        PrunedLogIsEnough(init, policies, key, hit.now);
        var log, history := LogOf(HitLogs(init, policies), key), Admitted(init, policies, key);
        RecentOfRecent(log, hit.now, later, w);
        RecentSnoc(Recent(log, hit.now, w), hit.now, later, w);
        RecentSnoc(history, hit.now, later, w);
      }
    }
  }

  lemma ClockBefore(hits: seq<Hit>, hit: Hit)
    requires ClockForward(hits + [hit])
    ensures ClockForward(hits)
    ensures hits != [] ==> hits[|hits| - 1].now <= hit.now
  {
    var all := hits + [hit];
    assert forall i :: 0 <= i < |hits| ==> hits[i] == all[i];
    assert hits != [] ==> all[|hits| - 1].now <= all[|hits|].now;
  }

  /** What the limiter answers after any run of calls on any keys is what a limiter that
      remembers every admitted call would answer. */
  lemma AllowAgreesWithHistory(hits: seq<Hit>, policies: string -> Policy, key: string, now: real)
    requires ClockForward(hits + [Hit(key, now)])
    ensures |Recent(LogOf(HitLogs(hits, policies), key), now, policies(key).window)| < policies(key).limit
       <==> |Admitted(hits + [Hit(key, now)], policies, key)| == |Admitted(hits, policies, key)| + 1
  {
    ClockBefore(hits, Hit(key, now));
    PrunedLogIsEnough(hits, policies, key, now);
    assert (hits + [Hit(key, now)])[..|hits|] == hits;
  }

  /** How many of the times fall in the half-open window [start, start + width). */
  function CountIn(times: seq<real>, start: real, width: real): nat {
    if times == [] then 0
    else
      var t := times[|times| - 1];
      CountIn(times[..|times| - 1], start, width) + (if start <= t < start + width then 1 else 0)
  }

  lemma {:induction false} CountInIsNumber(times: seq<real>, start: real, width: real, counted: nat -> bool)
    requires forall k: nat :: k < |times| ==> (counted(k) <==> start <= times[k] < start + width)
    ensures CountIn(times, start, width) == |set k: nat | k < |times| && counted(k)|
  {
    if times != [] {
      CountInIsNumber(times[..|times| - 1], start, width, counted);
      OneMoreCounted(|times| - 1, counted);
    }
  }

  lemma {:induction false} WindowWithinRecent(times: seq<real>, start: real, width: real, now: real)
    requires start <= now < start + width
    ensures CountIn(times, start, width) <= |Recent(times, now, width)|
  {
    if times != [] {
      WindowWithinRecent(times[..|times| - 1], start, width, now);
    }
  }

  /** Of the calls a limiter with the full history admits, no window of the policy's length holds
      more than the limit. */
  lemma {:induction false} AdmittedBound(hits: seq<Hit>, policies: string -> Policy, key: string, start: real)
    ensures CountIn(Admitted(hits, policies, key), start, policies(key).window)
         <= if policies(key).limit < 0 then 0 else policies(key).limit
  {
    if hits != [] {
      var init, hit := hits[..|hits| - 1], hits[|hits| - 1];
      AdmittedBound(init, policies, key, start);
      var before, w := Admitted(init, policies, key), policies(key).window;
      if hit.key == key && start <= hit.now < start + w {
        WindowWithinRecent(before, start, w, hit.now);
      }
      assert (before + [hit.now])[..|before|] == before;
    }
  }

  /** The time of every call for `key` that the pruned logs let through. */
  function LetThrough(hits: seq<Hit>, policies: string -> Policy, key: string): seq<real> {
    if hits == [] then []
    else
      var init, hit := hits[..|hits| - 1], hits[|hits| - 1];
      var recent := Recent(LogOf(HitLogs(init, policies), key), hit.now, policies(key).window);
      LetThrough(init, policies, key) +
      (if hit.key == key && |recent| < policies(key).limit then [hit.now] else [])
  }

  /** The limiter lets through exactly the calls that one with the full history admits. */
  lemma {:induction false} LetThroughIsAdmitted(hits: seq<Hit>, policies: string -> Policy, key: string)
    requires ClockForward(hits)
    ensures LetThrough(hits, policies, key) == Admitted(hits, policies, key)
  {
    if hits != [] {
      var init, hit := hits[..|hits| - 1], hits[|hits| - 1];
      LetThroughIsAdmitted(init, policies, key);
      PrunedLogIsEnough(init, policies, key, hit.now);
    }
  }

  /** No window of the policy's length, wherever it starts, holds more calls of one key that the
      limiter lets through than the limit. */
  lemma WindowBound(hits: seq<Hit>, policies: string -> Policy, key: string, start: real)
    requires ClockForward(hits)
    ensures CountIn(LetThrough(hits, policies, key), start, policies(key).window)
         <= if policies(key).limit < 0 then 0 else policies(key).limit
  {
    LetThroughIsAdmitted(hits, policies, key);
    AdmittedBound(hits, policies, key, start);
  }

  // ---------- runs on a clock that steps back ----------

  /** The same time n times over, and the calls made then. */
  function Times(t: real, n: nat): (times: seq<real>)
    ensures |times| == n
  {
    if n == 0 then [] else Times(t, n - 1) + [t]
  }

  function CallsAt(key: string, t: real, n: nat): seq<Hit> {
    if n == 0 then [] else CallsAt(key, t, n - 1) + [Hit(key, t)]
  }

  lemma {:induction false} RecentOfTimes(t: real, n: nat, now: real, window: real)
    ensures Recent(Times(t, n), now, window) == if now - t < window then Times(t, n) else []
  {
    if n > 0 {
      RecentOfTimes(t, n - 1, now, window);
      RecentSnoc(Times(t, n - 1), t, now, window);
    }
  }

  /** One more call of a key: in its log, in what was let through and in the full history. */
  lemma OneMoreCall(hits: seq<Hit>, hit: Hit, policies: string -> Policy)
    ensures var recent := Recent(LogOf(HitLogs(hits, policies), hit.key), hit.now, policies(hit.key).window);
            var more := if |recent| < policies(hit.key).limit then [hit.now] else [];
            && LogOf(HitLogs(hits + [hit], policies), hit.key) == recent + more
            && LetThrough(hits + [hit], policies, hit.key) == LetThrough(hits, policies, hit.key) + more
    ensures var before := Admitted(hits, policies, hit.key);
            Admitted(hits + [hit], policies, hit.key) ==
            if |Recent(before, hit.now, policies(hit.key).window)| < policies(hit.key).limit
            then before + [hit.now] else before
  {
    assert (hits + [hit])[..|hits|] == hits;
  }

  /** Nothing has been forgotten yet: log, calls let through and full history are these times. */
  ghost predicate AllAre(hits: seq<Hit>, policies: string -> Policy, key: string, log: seq<real>, times: seq<real>) {
    && LogOf(HitLogs(hits, policies), key) == log
    && LetThrough(hits, policies, key) == times
    && Admitted(hits, policies, key) == times
  }

  lemma {:induction false} CallsAtOnce(policies: string -> Policy, key: string, t: real, n: nat)
    requires n <= policies(key).limit && policies(key).window > 0.0
    ensures AllAre(CallsAt(key, t, n), policies, key, Times(t, n), Times(t, n))
    decreases n
  {
    if n > 0 {
      CallsAtOnce(policies, key, t, n - 1);
      RecentOfTimes(t, n - 1, t, policies(key).window);
      OneMoreCall(CallsAt(key, t, n - 1), Hit(key, t), policies);
    }
  }

  /** A call that comes when they have left the window: the log keeps that one only. */
  lemma CallPushesOut(policies: string -> Policy, key: string, t0: real, t1: real, n: nat)
    requires n <= policies(key).limit && 1 <= policies(key).limit && t1 - t0 >= policies(key).window > 0.0
    ensures AllAre(CallsAt(key, t0, n) + [Hit(key, t1)], policies, key, [t1], Times(t0, n) + [t1])
  {
    CallsAtOnce(policies, key, t0, n);
    RecentOfTimes(t0, n, t1, policies(key).window);
    OneMoreCall(CallsAt(key, t0, n), Hit(key, t1), policies);
    assert [] + [t1] == [t1];
  }

  /** From a limit of two on the clock condition is needed.  Let the clock step back after a call
      that pushed earlier ones out of the window: the pruned log has forgotten them and lets a call
      through that the full history refuses. */
  lemma ClockBackBreaksPruning(policies: string -> Policy, key: string, t0: real, t1: real, t2: real)
    requires policies(key).limit >= 2 && policies(key).window > 0.0
    requires t2 < t1 && t1 - t0 >= policies(key).window > t2 - t0
    ensures var hits := CallsAt(key, t0, policies(key).limit - 1) + [Hit(key, t1)];
            && |LetThrough(hits + [Hit(key, t2)], policies, key)| == |LetThrough(hits, policies, key)| + 1
            && Admitted(hits + [Hit(key, t2)], policies, key) == Admitted(hits, policies, key)
            && LetThrough(hits, policies, key) == Admitted(hits, policies, key)
  {
    var n, w := policies(key).limit - 1, policies(key).window;
    CallPushesOut(policies, key, t0, t1, n);
    RecentSnoc([], t1, t2, w);
    assert [] + [t1] == [t1];
    RecentOfTimes(t0, n, t2, w);
    RecentSnoc(Times(t0, n), t1, t2, w);
    OneMoreCall(CallsAt(key, t0, n) + [Hit(key, t1)], Hit(key, t2), policies);
  }

  lemma CountSnoc(times: seq<real>, t: real, start: real, width: real)
    ensures CountIn(times + [t], start, width)
         == CountIn(times, start, width) + if start <= t < start + width then 1 else 0
  {
    assert (times + [t])[..|times|] == times;
  }

  lemma {:induction false} CountOfTimes(t: real, n: nat, width: real)
    requires width > 0.0
    ensures CountIn(Times(t, n), t, width) == n
  {
    if n > 0 {
      CountOfTimes(t, n - 1, width);
      CountSnoc(Times(t, n - 1), t, t, width);
    }
  }

  /** Nor does the bound hold without it: then a window can hold one call more than the limit. */
  lemma ClockBackBreaksBound(policies: string -> Policy, key: string, t0: real, t1: real, t2: real)
    requires policies(key).limit >= 2 && policies(key).window > 0.0
    requires t0 <= t2 < t1 && t1 - t0 >= policies(key).window > t2 - t0
    ensures var hits := CallsAt(key, t0, policies(key).limit) + [Hit(key, t1)] + [Hit(key, t2)];
            CountIn(LetThrough(hits, policies, key), t0, policies(key).window) == policies(key).limit + 1
  {
    var n, w := policies(key).limit, policies(key).window;
    CallPushesOut(policies, key, t0, t1, n);
    RecentSnoc([], t1, t2, w);
    assert [] + [t1] == [t1];
    OneMoreCall(CallsAt(key, t0, n) + [Hit(key, t1)], Hit(key, t2), policies);
    CountOfTimes(t0, n, w);
    CountSnoc(Times(t0, n), t1, t0, w);
    CountSnoc(Times(t0, n) + [t1], t2, t0, w);
  }

  lemma {:induction false} RecentNone(log: seq<real>, now: real, window: real)
    requires forall t :: t in log ==> now - t >= window
    ensures Recent(log, now, window) == []
  {
    if log != [] {
      var init, last := log[..|log| - 1], log[|log| - 1];
      assert last in log;
      forall t | t in init
        ensures t in log
      {
      }
      RecentNone(init, now, window);
    }
  }

  /** With a limit of one the log is the latest admitted call, and none was later. */
  ghost predicate LatestOnly(log: seq<real>, times: seq<real>) {
    if times == [] then log == []
    else log == [times[|times| - 1]] && forall t :: t in times ==> t <= times[|times| - 1]
  }

  lemma LatestDecides(log: seq<real>, times: seq<real>, now: real, window: real)
    requires LatestOnly(log, times)
    ensures Recent(log, now, window) == [] <==> Recent(times, now, window) == []
    ensures Recent(log, now, window) == [] || Recent(log, now, window) == log
    ensures window > 0.0 && Recent(log, now, window) == [] ==> LatestOnly([now], times + [now])
  {
    if times != [] {
      var last := times[|times| - 1];
      RecentSnoc([], last, now, window);
      assert [] + [last] == [last];
      if now - last >= window {
        RecentNone(times, now, window);
      }
    }
  }

  /** So then, and with a smaller limit, no clock makes the limiter forget what matters. */
  lemma {:induction false} LowLimitNeedsNoClock(hits: seq<Hit>, policies: string -> Policy, key: string)
    requires policies(key).limit <= 1 && policies(key).window > 0.0
    ensures LetThrough(hits, policies, key) == Admitted(hits, policies, key)
    ensures policies(key).limit == 1 ==> LatestOnly(LogOf(HitLogs(hits, policies), key), Admitted(hits, policies, key))
  {
    if hits != [] {
      var init, hit := hits[..|hits| - 1], hits[|hits| - 1];
      LowLimitNeedsNoClock(init, policies, key);
      if hit.key == key && policies(key).limit == 1 {
        LatestDecides(LogOf(HitLogs(init, policies), key), Admitted(init, policies, key),
                      hit.now, policies(key).window);
      }
    }
  }

  lemma SomeRunDiffers(policies: string -> Policy, key: string) returns (hits: seq<Hit>)
    requires policies(key).limit >= 2 && policies(key).window > 0.0
    ensures LetThrough(hits, policies, key) != Admitted(hits, policies, key)
  {
    var w := policies(key).window;
    ClockBackBreaksPruning(policies, key, 0.0, w, w / 2.0);
    hits := CallsAt(key, 0.0, policies(key).limit - 1) + [Hit(key, w)] + [Hit(key, w / 2.0)];
  }

  /** Whatever the clock does, the limiter agrees with the full history on every run if and only if
      it allows at most one call per window. */
  lemma PruningIsSafeExactly(policies: string -> Policy, key: string)
    requires policies(key).window > 0.0
    ensures (forall hits :: LetThrough(hits, policies, key) == Admitted(hits, policies, key))
       <==> policies(key).limit <= 1
  {
    if policies(key).limit <= 1 {
      forall hits
        ensures LetThrough(hits, policies, key) == Admitted(hits, policies, key)
      {
        LowLimitNeedsNoClock(hits, policies, key);
      }
    } else {
      var hits := SomeRunDiffers(policies, key);
    }
  }

  ghost predicate WithinLimit(hits: seq<Hit>, policies: string -> Policy, key: string, start: real) {
    CountIn(LetThrough(hits, policies, key), start, policies(key).window)
    <= if policies(key).limit < 0 then 0 else policies(key).limit
  }

  lemma SomeRunExceeds(policies: string -> Policy, key: string) returns (hits: seq<Hit>)
    requires policies(key).limit >= 2 && policies(key).window > 0.0
    ensures !WithinLimit(hits, policies, key, 0.0)
  {
    var w := policies(key).window;
    ClockBackBreaksBound(policies, key, 0.0, w, w / 2.0);
    hits := CallsAt(key, 0.0, policies(key).limit) + [Hit(key, w)] + [Hit(key, w / 2.0)];
  }

  /** And no window ever holds more than the limit under exactly that condition. */
  lemma BoundIsSafeExactly(policies: string -> Policy, key: string)
    requires policies(key).window > 0.0
    ensures (forall hits, start :: WithinLimit(hits, policies, key, start)) <==> policies(key).limit <= 1
  {
    if policies(key).limit <= 1 {
      forall hits, start
        ensures WithinLimit(hits, policies, key, start)
      {
        LowLimitNeedsNoClock(hits, policies, key);
        AdmittedBound(hits, policies, key, start);
      }
    } else {
      var hits := SomeRunExceeds(policies, key);
    }
  }

  // ---------- whole runs of the lockout ----------

  datatype Auth = Check(key: string, now: real) | Failure(key: string, now: real)

  function AfterAuth(logs: Logs, step: Auth): Logs {
    var recent := Recent(LogOf(logs, step.key), step.now, FAILURE_WINDOW_SECONDS);
    logs[step.key := if step.Failure? then recent + [step.now] else recent]
  }

  function AuthLogs(steps: seq<Auth>): Logs {
    if steps == [] then map[] else AfterAuth(AuthLogs(steps[..|steps| - 1]), steps[|steps| - 1])
  }

  /** Every failure ever recorded for a key. */
  function Failures(steps: seq<Auth>, key: string): seq<real> {
    if steps == [] then []
    else
      var step := steps[|steps| - 1];
      Failures(steps[..|steps| - 1], key) + (if step.Failure? && step.key == key then [step.now] else [])
  }

  ghost predicate AuthClockForward(steps: seq<Auth>) {
    forall i, j :: 0 <= i < j < |steps| ==> steps[i].now <= steps[j].now
  }

  lemma {:induction false} PrunedFailuresAreEnough(steps: seq<Auth>, key: string, later: real)
    requires AuthClockForward(steps)
    requires steps != [] ==> steps[|steps| - 1].now <= later
    ensures Recent(LogOf(AuthLogs(steps), key), later, FAILURE_WINDOW_SECONDS)
         == Recent(Failures(steps, key), later, FAILURE_WINDOW_SECONDS)
  {
    if steps != [] {
      var init, step := steps[..|steps| - 1], steps[|steps| - 1];
      PrunedFailuresAreEnough(init, key, later);
      if step.key == key {
        var log := LogOf(AuthLogs(init), key);
        RecentOfRecent(log, step.now, later, FAILURE_WINDOW_SECONDS);
        RecentSnoc(Recent(log, step.now, FAILURE_WINDOW_SECONDS), step.now, later, FAILURE_WINDOW_SECONDS);
        RecentSnoc(Failures(init, key), step.now, later, FAILURE_WINDOW_SECONDS);
      }
      assert Failures(init, key) + [] == Failures(init, key);
    }
  }

  lemma AuthClockBefore(steps: seq<Auth>, step: Auth)
    requires AuthClockForward(steps + [step])
    ensures AuthClockForward(steps)
    ensures steps != [] ==> steps[|steps| - 1].now <= step.now
  {
    var all := steps + [step];
    assert forall i :: 0 <= i < |steps| ==> steps[i] == all[i];
    assert steps != [] ==> all[|steps| - 1].now <= all[|steps|].now;
  }

  /** A check after any run locks a key out exactly when ten of all the failures ever recorded
      for it fall in the last fifteen minutes. */
  lemma LockoutAgreesWithHistory(steps: seq<Auth>, key: string, now: real)
    requires AuthClockForward(steps + [Check(key, now)])
    ensures |LogOf(AuthLogs(steps + [Check(key, now)]), key)| >= MAX_FAILURES
       <==> |Recent(Failures(steps, key), now, 15.0 * 60.0)| >= 10
  {
    AuthClockBefore(steps, Check(key, now));
    PrunedFailuresAreEnough(steps, key, now);
    assert (steps + [Check(key, now)])[..|steps|] == steps;
  }
}
