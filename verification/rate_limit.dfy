/** backend/shared_domain/rate_limit.py: per-actor request windows and concurrency caps. */
module RateLimit {
  import opened Sequences
  import opened Text

  datatype Decision = Allow | ConcurrencyExceeded | RateExceeded

  /** The constructor's limits. */
  datatype Limits = Limits(maxRequests: int, maxConcurrent: int)

  datatype Limiter = Limiter(window: int, requests: map<string, int>, inflight: map<string, int>)

  /** The minute of an instant given in seconds. */
  function Window(now: real): int {
    (now / 60.0).Floor
  }

  /** counts.get(actor, 0) */
  function Count(counts: map<string, int>, actor: string): int {
    if actor in counts then counts[actor] else 0
  }

  /** The window moves on and forgets the counts of the one before. */
  function Rolled(s: Limiter, window: int): Limiter {
    if window != s.window then s.(window := window, requests := map[]) else s
  }

  /** try_acquire */
  function Acquired(l: Limits, before: Limiter, actor: string, now: real): (Limiter, Decision) {
    var s := Rolled(before, Window(now));
    var inflight, requests := Count(s.inflight, actor), Count(s.requests, actor);
    if l.maxConcurrent <= 0 || inflight >= l.maxConcurrent then (s, ConcurrencyExceeded)
    else if l.maxRequests <= 0 || requests >= l.maxRequests then (s, RateExceeded)
    else (s.(requests := s.requests[actor := requests + 1], inflight := s.inflight[actor := inflight + 1]), Allow)
  }

  /** release */
  function Released(s: Limiter, actor: string): Limiter {
    var inflight := Count(s.inflight, actor);
    s.(inflight := if inflight <= 1 then s.inflight - {actor} else s.inflight[actor := inflight - 1])
  }

  class InMemoryActorRateLimiter {
    const limits: Limits
    var windowEpochMinute: int
    var requestCounts: map<string, int>
    var inflightCounts: map<string, int>

    function State(): Limiter
      reads this
    {
      Limiter(windowEpochMinute, requestCounts, inflightCounts)
    }

    constructor (limits: Limits, now: real)
      ensures this.limits == limits && State() == Limiter(Window(now), map[], map[])
    {
      this.limits := limits;
      windowEpochMinute, requestCounts, inflightCounts := Window(now), map[], map[];
    }

    method TryAcquire(actor: string, now: real) returns (r: Decision)
      modifies this
      ensures (State(), r) == Acquired(limits, old(State()), actor, now)
    {
      var currentWindow := Window(now);
      if currentWindow != windowEpochMinute {
        windowEpochMinute := currentWindow;
        requestCounts := map[];
      }
      if limits.maxConcurrent <= 0 { return ConcurrencyExceeded; }
      var inflight := Count(inflightCounts, actor);
      if inflight >= limits.maxConcurrent { return ConcurrencyExceeded; }
      if limits.maxRequests <= 0 { return RateExceeded; }
      var requestCount := Count(requestCounts, actor);
      if requestCount >= limits.maxRequests { return RateExceeded; }
      requestCounts := requestCounts[actor := requestCount + 1];
      inflightCounts := inflightCounts[actor := inflight + 1];
      r := Allow;
    }

    method Release(actor: string)
      modifies this
      ensures State() == Released(old(State()), actor)
    {
      var inflight := Count(inflightCounts, actor);
      if inflight <= 1 {
        inflightCounts := inflightCounts - {actor};
      } else {
        inflightCounts := inflightCounts[actor := inflight - 1];
      }
    }
  }

  // ----- every interleaving of calls -----

  datatype Call = Acquire(actor: string, now: real) | Release(actor: string)

  function Step(l: Limits, s: Limiter, c: Call): Limiter {
    match c
    case Acquire(actor, now) => Acquired(l, s, actor, now).0
    case Release(actor) => Released(s, actor)
  }

  /** The limiter created at `start` after these calls. */
  function Run(l: Limits, start: real, calls: seq<Call>): Limiter {
    if calls == [] then Limiter(Window(start), map[], map[])
    else Step(l, Run(l, start, calls[..|calls| - 1]), calls[|calls| - 1])
  }

  predicate Grants(l: Limits, s: Limiter, c: Call, actor: string) {
    c.Acquire? && c.actor == actor && Acquired(l, s, actor, c.now).1 == Allow
  }

  /** How many requests of the actor were granted at times of this kind. */
  function GrantsAt(l: Limits, start: real, calls: seq<Call>, actor: string, kind: real -> bool): nat {
    if calls == [] then 0
    else
      var front, last := calls[..|calls| - 1], calls[|calls| - 1];
      GrantsAt(l, start, front, actor, kind)
      + if Grants(l, Run(l, start, front), last, actor) && kind(last.now) then 1 else 0
  }

  /** The instants of one minute. */
  function Minute(window: int): real -> bool {
    (t: real) => Window(t) == window
  }

  /** The sixty seconds from a on, both ends included. */
  function SixtyFrom(a: real): real -> bool {
    (t: real) => a <= t <= a + 60.0
  }

  /** The times at which the calls read the clock. */
  function Readings(calls: seq<Call>): seq<real> {
    if calls == [] then []
    else if calls[|calls| - 1].Acquire? then Readings(calls[..|calls| - 1]) + [calls[|calls| - 1].now]
    else Readings(calls[..|calls| - 1])
  }

  /** Of the last readings, those that stay in this minute without a break: is one of this kind? */
  predicate Seen(times: seq<real>, window: int, kind: real -> bool) {
    times != [] && Window(times[|times| - 1]) == window
    && (kind(times[|times| - 1]) || Seen(times[..|times| - 1], window, kind))
  }

  /** How many visits to a minute, that is unbroken stretches of readings in it, have a reading of this kind. */
  function Visits(times: seq<real>, kind: real -> bool): nat {
    if times == [] then 0
    else
      var front, last := times[..|times| - 1], times[|times| - 1];
      Visits(front, kind) + if kind(last) && !Seen(front, Window(last), kind) then 1 else 0
  }

  /** The time of the last call that reads the clock. */
  function Latest(start: real, calls: seq<Call>): real {
    if calls == [] then start
    else if calls[|calls| - 1].Acquire? then calls[|calls| - 1].now
    else Latest(start, calls[..|calls| - 1])
  }

  /** The clock never goes back. */
  ghost predicate Monotonic(start: real, calls: seq<Call>) {
    calls == []
    || (Monotonic(start, calls[..|calls| - 1])
        && (calls[|calls| - 1].Acquire? ==> Latest(start, calls[..|calls| - 1]) <= calls[|calls| - 1].now))
  }

  lemma WindowsOrdered(a: real, b: real)
    requires a <= b
    ensures Window(a) <= Window(b)
  {
    assert a / 60.0 <= b / 60.0;
  }

  lemma {:induction false} WindowIsLatest(l: Limits, start: real, calls: seq<Call>)
    ensures Run(l, start, calls).window == Window(Latest(start, calls))
  {
    if calls != [] { WindowIsLatest(l, start, calls[..|calls| - 1]); }
  }

  function Capped(limit: int): nat { if limit > 0 then limit else 0 }

  lemma {:induction false} WindowIsLastReading(l: Limits, start: real, calls: seq<Call>)
    ensures Readings(calls) != [] ==>
              Run(l, start, calls).window == Window(Readings(calls)[|Readings(calls)| - 1])
    ensures Readings(calls) == [] ==> Run(l, start, calls) == Limiter(Window(start), map[], Run(l, start, calls).inflight)
  {
    if calls != [] { WindowIsLastReading(l, start, calls[..|calls| - 1]); }
  }

  lemma {:induction false} RequestsCapped(l: Limits, start: real, calls: seq<Call>, actor: string)
    ensures 0 <= Count(Run(l, start, calls).requests, actor) <= Capped(l.maxRequests)
  {
    if calls != [] { RequestsCapped(l, start, calls[..|calls| - 1], actor); }
  }

  /** The grants at times of a kind fit into the visits that have one; those of the current visit are also counted by
      the limiter. */
  ghost predicate Fits(grants: int, visits: nat, cap: nat, seen: bool, count: int) {
    if seen then grants + cap <= cap * visits + count else grants <= cap * visits
  }

  lemma OneMoreVisit(cap: nat, visits: nat)
    ensures cap * (visits + 1) == cap * visits + cap
  {
  }

  ghost predicate Fitting(l: Limits, start: real, calls: seq<Call>, actor: string, kind: real -> bool) {
    var s := Run(l, start, calls);
    Fits(GrantsAt(l, start, calls, actor, kind), Visits(Readings(calls), kind), Capped(l.maxRequests),
         Seen(Readings(calls), s.window, kind), Count(s.requests, actor))
  }

  lemma {:induction false} GrantsFitVisits(l: Limits, start: real, calls: seq<Call>, actor: string, kind: real -> bool)
    ensures Fitting(l, start, calls, actor, kind)
  {
    if calls != [] {
      var front, last := calls[..|calls| - 1], calls[|calls| - 1];
      GrantsFitVisits(l, start, front, actor, kind);
      if last.Acquire? { NextAcquireFits(l, start, calls, actor, kind, front, last, Readings(front)); }
    }
  }

  lemma NextAcquireFits(l: Limits, start: real, calls: seq<Call>, actor: string, kind: real -> bool,
                        front: seq<Call>, c: Call, times: seq<real>)
    requires calls != [] && front == calls[..|calls| - 1] && c == calls[|calls| - 1] && c.Acquire?
    requires times == Readings(front) && Fitting(l, start, front, actor, kind)
    ensures Fitting(l, start, calls, actor, kind)
  {
    WindowIsLastReading(l, start, front);
    RequestsCapped(l, start, front, actor);
    var more, before := times + [c.now], Run(l, start, front);
    assert more[..|times|] == times && more[|times|] == c.now;
    assert Readings(calls) == more && Run(l, start, calls) == Acquired(l, before, c.actor, c.now).0;
    AcquireFits(l, before, c, actor, kind, times, GrantsAt(l, start, front, actor, kind));
  }

  lemma AcquireFits(l: Limits, s: Limiter, c: Call, actor: string, kind: real -> bool, times: seq<real>, grants: nat)
    requires c.Acquire? && 0 <= Count(s.requests, actor) <= Capped(l.maxRequests)
    requires times != [] ==> s.window == Window(times[|times| - 1])
    requires Fits(grants, Visits(times, kind), Capped(l.maxRequests), Seen(times, s.window, kind), Count(s.requests, actor))
    ensures var after := Acquired(l, s, c.actor, c.now).0;
            var visited := kind(c.now) && !Seen(times, Window(c.now), kind);
            Fits(grants + (if Grants(l, s, c, actor) && kind(c.now) then 1 else 0),
                 Visits(times, kind) + (if visited then 1 else 0), Capped(l.maxRequests),
                 kind(c.now) || Seen(times, Window(c.now), kind), Count(after.requests, actor))
  {
    OneMoreVisit(Capped(l.maxRequests), Visits(times, kind));
  }

  /** However often the clock goes back: at most the limit for each visit. */
  lemma GrantsPerVisit(l: Limits, start: real, calls: seq<Call>, actor: string, kind: real -> bool)
    ensures GrantsAt(l, start, calls, actor, kind) <= Capped(l.maxRequests) * Visits(Readings(calls), kind)
  {
    GrantsFitVisits(l, start, calls, actor, kind);
    RequestsCapped(l, start, calls, actor);
  }

  // ----- no smaller bound will do -----

  /** Calls at these times: of actor "a" at times of the kind, else of actor "b". */
  function Exploit(times: seq<real>, kind: real -> bool): seq<Call> {
    if times == [] then []
    else
      Exploit(times[..|times| - 1], kind)
      + [Acquire(if kind(times[|times| - 1]) then "a" else "b", times[|times| - 1])]
  }
  /** After these calls at these times: each visit with a reading of the kind gave actor "a" one grant. */
  ghost predicate Exploited(l: Limits, start: real, calls: seq<Call>, times: seq<real>, kind: real -> bool) {
    && Readings(calls) == times && GrantsAt(l, start, calls, "a", kind) == Visits(times, kind)
    && Count(Run(l, start, calls).inflight, "a") <= |times|
    && Count(Run(l, start, calls).requests, "a") == if Seen(times, Run(l, start, calls).window, kind) then 1 else 0
  }

  lemma {:induction false} ExploitGrants(l: Limits, start: real, times: seq<real>, kind: real -> bool)
    requires l.maxRequests == 1 && l.maxConcurrent > |times|
    ensures Exploited(l, start, Exploit(times, kind), times, kind)
  {
    if times != [] {
      var front, last := times[..|times| - 1], times[|times| - 1];
      ExploitGrants(l, start, front, kind);
      OneMoreExploited(l, start, Exploit(front, kind), front, kind, last);
      assert front + [last] == times;
    }
  }

  lemma OneMoreExploited(l: Limits, start: real, calls: seq<Call>, times: seq<real>, kind: real -> bool, now: real)
    requires l.maxRequests == 1 && l.maxConcurrent > |times| + 1 && Exploited(l, start, calls, times, kind)
    ensures Exploited(l, start, calls + [Acquire(if kind(now) then "a" else "b", now)], times + [now], kind)
  {
    var c := Acquire(if kind(now) then "a" else "b", now);
    WindowIsLastReading(l, start, calls);
    assert (calls + [c])[..|calls|] == calls && (times + [now])[..|times|] == times;
    ExploitStep(l, Run(l, start, calls), times, kind, c);
  }

  lemma ExploitStep(l: Limits, s: Limiter, times: seq<real>, kind: real -> bool, c: Call)
    requires l.maxRequests == 1 && l.maxConcurrent > |times| + 1
    requires c.Acquire? && c.actor == if kind(c.now) then "a" else "b"
    requires times != [] ==> s.window == Window(times[|times| - 1])
    requires Count(s.requests, "a") == (if Seen(times, s.window, kind) then 1 else 0) && Count(s.inflight, "a") <= |times|
    ensures var after := Acquired(l, s, c.actor, c.now).0;
            && (Grants(l, s, c, "a") <==> kind(c.now) && !Seen(times, Window(c.now), kind))
            && after.window == Window(c.now) && Count(after.inflight, "a") <= |times| + 1
            && Count(after.requests, "a") == (if kind(c.now) || Seen(times, after.window, kind) then 1 else 0)
  {
    assert "a" != "b";
  }

  /** Whatever the limits and the calls at these times, no actor is granted more than n times the limit at times of
      the kind. */
  ghost predicate Bounded(start: real, times: seq<real>, kind: real -> bool, n: nat) {
    forall l, calls, actor | Readings(calls) == times ::
      GrantsAt(l, start, calls, actor, kind) <= n * Capped(l.maxRequests)
  }

  /** That is so exactly when at most n visits have a reading of that kind. */
  lemma BoundedIff(start: real, times: seq<real>, kind: real -> bool, n: nat)
    ensures Bounded(start, times, kind, n) <==> Visits(times, kind) <= n
  {
    if Visits(times, kind) <= n { FewVisitsBound(start, times, kind, n); }
    if Bounded(start, times, kind, n) { BoundedVisits(start, times, kind, n); }
  }

  lemma FewVisitsBound(start: real, times: seq<real>, kind: real -> bool, n: nat)
    requires Visits(times, kind) <= n
    ensures Bounded(start, times, kind, n)
  {
    forall l, calls, actor | Readings(calls) == times
      ensures GrantsAt(l, start, calls, actor, kind) <= n * Capped(l.maxRequests)
    {
      GrantsPerVisit(l, start, calls, actor, kind);
      TimesMonotone(Capped(l.maxRequests), Visits(times, kind), n);
    }
  }

  lemma BoundedVisits(start: real, times: seq<real>, kind: real -> bool, n: nat)
    requires Bounded(start, times, kind, n)
    ensures Visits(times, kind) <= n
  {
    var l := Limits(1, |times| + 1);
    ExploitGrants(l, start, times, kind);
    GrantsBounded(l, start, Exploit(times, kind), times, kind, n);
  }

  lemma GrantsBounded(l: Limits, start: real, calls: seq<Call>, times: seq<real>, kind: real -> bool, n: nat)
    requires Bounded(start, times, kind, n) && Readings(calls) == times && l.maxRequests == 1
    ensures GrantsAt(l, start, calls, "a", kind) <= n
  {
    assert GrantsAt(l, start, calls, "a", kind) <= n * Capped(l.maxRequests);
  }

  lemma TimesMonotone(cap: nat, m: nat, n: nat)
    requires m <= n
    ensures cap * m <= n * cap
  {
  }

  // ----- when the bounds hold -----

  /** No minute comes back after another one was read. */
  ghost predicate NeverReturns(times: seq<real>) {
    forall i, j, k | 0 <= i < j < k < |times| && Window(times[i]) == Window(times[k]) ::
      Window(times[j]) == Window(times[i])
  }

  lemma NeverReturnsFront(times: seq<real>)
    requires times != [] && NeverReturns(times)
    ensures NeverReturns(times[..|times| - 1])
  {
    var front := times[..|times| - 1];
    forall i, j, k | 0 <= i < j < k < |front| && Window(front[i]) == Window(front[k])
      ensures Window(front[j]) == Window(front[i])
    {
      assert front[i] == times[i] && front[j] == times[j] && front[k] == times[k];
    }
  }

  /** A minute was visited exactly when it was read. */
  lemma {:induction false} VisitedIffRead(times: seq<real>, window: int)
    ensures Visits(times, Minute(window)) > 0 <==> exists i :: 0 <= i < |times| && Window(times[i]) == window
  {
    if times != [] {
      var front := times[..|times| - 1];
      VisitedIffRead(front, window);
      if i :| 0 <= i < |times| && Window(times[i]) == window {
        if i < |front| { assert front[i] == times[i]; }
      }
      if i :| 0 <= i < |front| && Window(front[i]) == window { assert times[i] == front[i]; }
    }
  }

  lemma {:induction false} VisitedOnce(times: seq<real>, window: int)
    requires NeverReturns(times)
    ensures Visits(times, Minute(window)) <= 1
  {
    if times != [] {
      NeverReturnsFront(times);
      VisitedOnce(times[..|times| - 1], window);
      if Window(times[|times| - 1]) == window && !Seen(times[..|times| - 1], window, Minute(window)) {
        FirstVisit(times, window);
      }
    }
  }

  lemma FirstVisit(times: seq<real>, window: int)
    requires times != [] && NeverReturns(times) && Window(times[|times| - 1]) == window
    requires !Seen(times[..|times| - 1], window, Minute(window))
    ensures Visits(times[..|times| - 1], Minute(window)) == 0
  {
    var front, n := times[..|times| - 1], |times| - 1;
    VisitedIffRead(front, window);
    assert n > 0 ==> Window(times[n - 1]) != window by { assert n > 0 ==> front[n - 1] == times[n - 1]; }
    forall i | 0 <= i < |front| ensures Window(front[i]) != window { assert front[i] == times[i]; }
  }

  lemma {:induction false} ReturnVisitsTwice(times: seq<real>, i: nat, j: nat, k: nat)
    requires i < j < k < |times| && Window(times[i]) == Window(times[k]) != Window(times[j])
    ensures Visits(times, Minute(Window(times[i]))) >= 2
  {
    var front, n := times[..|times| - 1], |times| - 1;
    if k < n {
      ReturnVisitsTwice(front, i, j, k);
    } else if Window(times[n - 1]) == Window(times[i]) {
      ReturnVisitsTwice(front, i, j, n - 1);
    } else {
      VisitedIffRead(front, Window(front[i]));
    }
  }

  /** Over the readings of a clock: an actor can never be granted more than the limit in a minute, whatever the limit
      and the calls, exactly when no minute comes back after another one was read. */
  lemma PerMinuteBoundIff(start: real, times: seq<real>)
    ensures (forall window :: Bounded(start, times, Minute(window), 1)) <==> NeverReturns(times)
  {
    if NeverReturns(times) {
      forall window ensures Bounded(start, times, Minute(window), 1) {
        VisitedOnce(times, window);
        BoundedIff(start, times, Minute(window), 1);
      }
    }
    if forall window :: Bounded(start, times, Minute(window), 1) {
      forall i, j, k | 0 <= i < j < k < |times| && Window(times[i]) == Window(times[k])
        ensures Window(times[j]) == Window(times[i])
      {
        BoundedIff(start, times, Minute(Window(times[i])), 1);
        if Window(times[j]) != Window(times[i]) { ReturnVisitsTwice(times, i, j, k); }
      }
    }
  }

  /** With such a clock an actor gets at most the limit in any minute. */
  lemma PerMinuteBound(l: Limits, start: real, calls: seq<Call>, actor: string, window: int)
    requires NeverReturns(Readings(calls))
    ensures GrantsAt(l, start, calls, actor, Minute(window)) <= Capped(l.maxRequests)
  {
    PerMinuteBoundIff(start, Readings(calls));
    assert Bounded(start, Readings(calls), Minute(window), 1);
  }

  lemma SixtySecondsTouchTwoWindows(a: real, now: real)
    requires a <= now <= a + 60.0
    ensures Window(now) == Window(a) || Window(now) == Window(a) + 1
  {
    assert a / 60.0 <= now / 60.0 <= a / 60.0 + 1.0;
  }

  /** Each visit that touches the sixty seconds is a visit to one of two minutes. */
  lemma {:induction false} TouchingVisits(times: seq<real>, a: real)
    ensures var w := Window(a);
            Visits(times, SixtyFrom(a))
            + (if times != [] && w <= Window(times[|times| - 1]) <= w + 1
                  && !Seen(times, Window(times[|times| - 1]), SixtyFrom(a)) then 1 else 0)
            <= Visits(times, Minute(w)) + Visits(times, Minute(w + 1))
  {
    if times != [] {
      var last := times[|times| - 1];
      TouchingVisits(times[..|times| - 1], a);
      if a <= last <= a + 60.0 { SixtySecondsTouchTwoWindows(a, last); }
    }
  }

  /** ... and never more than twice the limit in any sixty seconds exactly when no sixty seconds touch three visits. */
  lemma SixtySecondBoundIff(start: real, times: seq<real>)
    ensures (forall a :: Bounded(start, times, SixtyFrom(a), 2)) <==> forall a :: Visits(times, SixtyFrom(a)) <= 2
  {
    forall a ensures Bounded(start, times, SixtyFrom(a), 2) <==> Visits(times, SixtyFrom(a)) <= 2 {
      BoundedIff(start, times, SixtyFrom(a), 2);
    }
  }

  /** When no minute comes back no sixty seconds do. */
  lemma SixtySecondBound(l: Limits, start: real, calls: seq<Call>, actor: string, a: real)
    requires NeverReturns(Readings(calls))
    ensures GrantsAt(l, start, calls, actor, SixtyFrom(a)) <= 2 * Capped(l.maxRequests)
  {
    var times := Readings(calls);
    TouchingVisits(times, a);
    VisitedOnce(times, Window(a));
    VisitedOnce(times, Window(a) + 1);
    BoundedIff(start, times, SixtyFrom(a), 2);
  }

  /** A clock that never goes back never returns to a minute. */
  lemma MonotonicNeverReturns(start: real, calls: seq<Call>)
    requires Monotonic(start, calls)
    ensures NeverReturns(Readings(calls))
  {
    var times := Readings(calls);
    MonotonicReadings(start, calls);
    forall i, j, k | 0 <= i < j < k < |times| && Window(times[i]) == Window(times[k])
      ensures Window(times[j]) == Window(times[i])
    {
      WindowsOrdered(times[i], times[j]);
      WindowsOrdered(times[j], times[k]);
    }
  }

  lemma {:induction false} MonotonicReadings(start: real, calls: seq<Call>)
    requires Monotonic(start, calls)
    ensures forall i, j | 0 <= i < j < |Readings(calls)| :: Readings(calls)[i] <= Readings(calls)[j]
    ensures forall i | 0 <= i < |Readings(calls)| :: Readings(calls)[i] <= Latest(start, calls)
  {
    if calls != [] { MonotonicReadings(start, calls[..|calls| - 1]); }
  }

  /** Stepping back a minute and on again forgets what was granted in it. */
  lemma ClockStepBackGrantsTwice(actor: string)
    ensures GrantsAt(Limits(1, 3), 0.0, [Acquire(actor, 0.0), Acquire(actor, 60.0), Acquire(actor, 0.0)], actor, Minute(0))
         == 2
  {
    var l, a, b := Limits(1, 3), Acquire(actor, 0.0), Acquire(actor, 60.0);
    assert Window(0.0) == 0 && Window(60.0) == 1;
    assert [a, b, a][..2] == [a, b] && [a, b][..1] == [a] && [a][..0] == [];
    var s0 := Run(l, 0.0, []);
    var s1 := Run(l, 0.0, [a]);
    assert s1 == Step(l, s0, a);
    var s2 := Run(l, 0.0, [a, b]);
    assert s2 == Step(l, s1, b);
    assert Grants(l, s0, a, actor) && Grants(l, s2, a, actor);
    assert GrantsAt(l, 0.0, [], actor, Minute(0)) == 0;
    assert GrantsAt(l, 0.0, [a], actor, Minute(0)) == 1;
    assert GrantsAt(l, 0.0, [a, b], actor, Minute(0)) == 1;
  }

  // ----- concurrency -----

  /** On every interleaving, whatever the clock does, no actor has more requests in flight than the cap. */
  lemma {:induction false} InflightBounded(l: Limits, start: real, calls: seq<Call>, actor: string)
    ensures 0 <= Count(Run(l, start, calls).inflight, actor) <= Capped(l.maxConcurrent)
  {
    if calls != [] { InflightBounded(l, start, calls[..|calls| - 1], actor); }
  }

  function AllGrants(l: Limits, start: real, calls: seq<Call>, actor: string): nat {
    if calls == [] then 0
    else
      AllGrants(l, start, calls[..|calls| - 1], actor)
      + if Grants(l, Run(l, start, calls[..|calls| - 1]), calls[|calls| - 1], actor) then 1 else 0
  }

  function Releases(calls: seq<Call>, actor: string): nat {
    if calls == [] then 0
    else Releases(calls[..|calls| - 1], actor) + if calls[|calls| - 1] == Release(actor) then 1 else 0
  }

  /** Every release of the actor follows a grant that was not yet released. */
  ghost predicate ReleasesFollowGrants(l: Limits, start: real, calls: seq<Call>, actor: string) {
    calls == []
    || (ReleasesFollowGrants(l, start, calls[..|calls| - 1], actor)
        && (calls[|calls| - 1] == Release(actor) ==>
              Releases(calls[..|calls| - 1], actor) < AllGrants(l, start, calls[..|calls| - 1], actor)))
  }

  /** The count in flight is grants minus releases exactly when releases follow grants; a stray release is absorbed
      at zero and makes the count too high for good. */
  lemma {:induction false} InflightIsGrantsMinusReleases(l: Limits, start: real, calls: seq<Call>, actor: string)
    ensures Count(Run(l, start, calls).inflight, actor) >= AllGrants(l, start, calls, actor) - Releases(calls, actor)
    ensures ReleasesFollowGrants(l, start, calls, actor) <==>
            Count(Run(l, start, calls).inflight, actor) == AllGrants(l, start, calls, actor) - Releases(calls, actor)
  {
    if calls != [] {
      InflightIsGrantsMinusReleases(l, start, calls[..|calls| - 1], actor);
      InflightBounded(l, start, calls[..|calls| - 1], actor);
    }
  }

  // ----- actors do not affect one another -----

  /** The calls of one actor. */
  function Only(calls: seq<Call>, actor: string): seq<Call> {
    if calls == [] then []
    else if calls[|calls| - 1].actor == actor then Only(calls[..|calls| - 1], actor) + [calls[|calls| - 1]]
    else Only(calls[..|calls| - 1], actor)
  }

  /** To the actor both limiters look alike; its own may lag in a minute it has read. */
  ghost predicate Alike(s: Limiter, own: Limiter, actor: string, times: seq<real>) {
    && Count(s.inflight, actor) == Count(own.inflight, actor)
    && (own.window == s.window ==> Count(s.requests, actor) == Count(own.requests, actor))
    && (own.window != s.window ==> Count(s.requests, actor) == 0)
    && (own.window != s.window && Count(own.requests, actor) != 0 ==> Read(times, own.window))
  }

  ghost predicate Read(times: seq<real>, window: int) {
    exists i :: 0 <= i < |times| && Window(times[i]) == window
  }

  lemma ReadAppend(times: seq<real>, now: real, window: int)
    requires Read(times, window) || Window(now) == window
    ensures Read(times + [now], window)
  {
    var more := times + [now];
    if Read(times, window) {
      var i :| 0 <= i < |times| && Window(times[i]) == window;
      assert more[i] == times[i];
    } else {
      assert more[|times|] == now;
    }
  }

  /** A minute read before the last reading left it is not read again. */
  lemma LeftForGood(times: seq<real>, now: real, window: int)
    requires NeverReturns(times + [now]) && Read(times, window) && Window(times[|times| - 1]) != window
    ensures Window(now) != window
  {
    var all := times + [now];
    var i :| 0 <= i < |times| && Window(times[i]) == window;
    assert all[i] == times[i] && all[|times| - 1] == times[|times| - 1] && all[|times|] == now;
  }

  lemma OwnCallKeepsAlike(l: Limits, s: Limiter, own: Limiter, c: Call, times: seq<real>)
    requires Alike(s, own, c.actor, times)
    requires c.Acquire? && own.window != s.window && Count(own.requests, c.actor) != 0 ==> Window(c.now) != own.window
    ensures Alike(Step(l, s, c), Step(l, own, c), c.actor, times)
    ensures c.Acquire? ==> Acquired(l, s, c.actor, c.now).1 == Acquired(l, own, c.actor, c.now).1
  {
  }

  lemma OthersCallKeepsAlike(l: Limits, s: Limiter, own: Limiter, c: Call, actor: string, times: seq<real>)
    requires Alike(s, own, actor, times) && c.actor != actor && 0 <= Count(own.requests, actor)
    requires c.Acquire? && own.window != s.window && Count(own.requests, actor) != 0 ==> Window(c.now) != own.window
    requires own.window == s.window && Count(own.requests, actor) != 0 ==> Read(times, own.window)
    ensures Alike(Step(l, s, c), own, actor, times)
  {
  }

  /** What the actor's limiter counts it counts for a minute that was read. */
  lemma {:induction false} CountedIsRead(l: Limits, start: real, calls: seq<Call>, actor: string)
    requires Count(Run(l, start, calls).requests, actor) != 0
    ensures Read(Readings(calls), Run(l, start, calls).window)
  {
    if calls != [] {
      var front, last := calls[..|calls| - 1], calls[|calls| - 1];
      if last.Acquire? {
        ReadAppend(Readings(front), last.now, Window(last.now));
      } else {
        CountedIsRead(l, start, front, actor);
      }
    }
  }

  lemma {:induction false} OwnReadings(calls: seq<Call>, actor: string, window: int)
    requires Read(Readings(Only(calls, actor)), window)
    ensures Read(Readings(calls), window)
  {
    if calls != [] {
      var front, last := calls[..|calls| - 1], calls[|calls| - 1];
      var own := Only(front, actor);
      if last.actor == actor {
        assert (own + [last])[..|own|] == own;
        if last.Acquire? {
          var i :| 0 <= i < |Readings(own)| + 1 && Window((Readings(own) + [last.now])[i]) == window;
          if i < |Readings(own)| { assert Window(Readings(own)[i]) == window; OwnReadings(front, actor, window); }
          ReadAppend(Readings(front), last.now, window);
        } else {
          OwnReadings(front, actor, window);
        }
      } else {
        OwnReadings(front, actor, window);
        if last.Acquire? { ReadAppend(Readings(front), last.now, window); }
      }
    }
  }

  lemma {:induction false} RunsAlike(l: Limits, start: real, calls: seq<Call>, actor: string)
    requires NeverReturns(Readings(calls))
    ensures Alike(Run(l, start, calls), Run(l, start, Only(calls, actor)), actor, Readings(calls))
  {
    if calls != [] {
      var front, last := calls[..|calls| - 1], calls[|calls| - 1];
      var own, times := Only(front, actor), Readings(front);
      if last.Acquire? {
        NeverReturnsFront(Readings(calls));
        assert (times + [last.now])[..|times|] == times;
      }
      RunsAlike(l, start, front, actor);
      NextCallAlike(l, start, front, own, last, actor);
      if last.actor == actor { assert (own + [last])[..|own|] == own; }
      AlikeLater(Run(l, start, calls), Run(l, start, Only(calls, actor)), actor, times, Readings(calls));
    }
  }

  lemma AlikeLater(s: Limiter, own: Limiter, actor: string, times: seq<real>, more: seq<real>)
    requires Alike(s, own, actor, times) && (more == times || exists now :: more == times + [now])
    ensures Alike(s, own, actor, more)
  {
    if more != times && Read(times, own.window) {
      var now :| more == times + [now];
      ReadAppend(times, now, own.window);
    }
  }

  lemma NextCallAlike(l: Limits, start: real, front: seq<Call>, own: seq<Call>, c: Call, actor: string)
    requires own == Only(front, actor) && Alike(Run(l, start, front), Run(l, start, own), actor, Readings(front))
    requires c.Acquire? ==> NeverReturns(Readings(front) + [c.now])
    ensures var s, o := Run(l, start, front), Run(l, start, own);
            if c.actor == actor then
              && Alike(Step(l, s, c), Step(l, o, c), actor, Readings(front))
              && (c.Acquire? ==> Acquired(l, s, actor, c.now).1 == Acquired(l, o, actor, c.now).1)
            else Alike(Step(l, s, c), o, actor, Readings(front))
  {
    var s, o, times := Run(l, start, front), Run(l, start, own), Readings(front);
    RequestsCapped(l, start, own, actor);
    if Count(o.requests, actor) != 0 {
      CountedIsRead(l, start, own, actor);
      OwnReadings(front, actor, o.window);
      WindowIsLastReading(l, start, front);
      if c.Acquire? && o.window != s.window { LeftForGood(times, c.now, o.window); }
    }
    if c.actor == actor { OwnCallKeepsAlike(l, s, o, c, times); } else { OthersCallKeepsAlike(l, s, o, c, actor, times); }
  }

  /** Noninterference: every decision is the one the actor would get if it were alone. */
  lemma DecidedAlone(l: Limits, start: real, calls: seq<Call>, actor: string, now: real)
    requires NeverReturns(Readings(calls) + [now])
    ensures Acquired(l, Run(l, start, calls), actor, now).1 == Acquired(l, Run(l, start, Only(calls, actor)), actor, now).1
  {
    var times := Readings(calls);
    NeverReturnsFront(times + [now]);
    assert (times + [now])[..|times|] == times;
    RunsAlike(l, start, calls, actor);
    NextCallAlike(l, start, calls, Only(calls, actor), Acquire(actor, now), actor);
  }

  // ----- ... unless a minute comes back -----

  /** Whatever the limits, the calls and the actor: the decision at each reading is the one the actor would get alone. */
  ghost predicate Noninterfering(start: real, times: seq<real>) {
    forall l, calls, actor, now | Readings(calls) + [now] <= times ::
      Acquired(l, Run(l, start, calls), actor, now).1 == Acquired(l, Run(l, start, Only(calls, actor)), actor, now).1
  }

  /** The reading at which a minute that was left is read again. */
  lemma {:induction false} FirstReturn(times: seq<real>, j: nat, k: nat) returns (r: nat)
    requires j < k < |times| && Window(times[j]) != Window(times[k])
    ensures j < r <= k && Window(times[r]) == Window(times[k]) && Window(times[r - 1]) != Window(times[k])
  {
    if Window(times[k - 1]) == Window(times[k]) { r := FirstReturn(times, j, k - 1); } else { r := k; }
  }

  /** Alone, actor "a" stays in its minute and is granted once. */
  ghost predicate GrantedOnce(l: Limits, start: real, calls: seq<Call>, times: seq<real>, window: int) {
    var own := Run(l, start, Only(calls, "a"));
    && Count(own.requests, "a") == (if Visits(times, Minute(window)) > 0 then 1 else 0)
    && (Visits(times, Minute(window)) > 0 ==> own.window == window) && Count(own.inflight, "a") <= |times|
  }

  lemma {:induction false} ExploitAlone(l: Limits, start: real, times: seq<real>, window: int)
    requires l.maxRequests == 1 && l.maxConcurrent > |times|
    ensures GrantedOnce(l, start, Exploit(times, Minute(window)), times, window)
  {
    if times != [] {
      var front, last := times[..|times| - 1], times[|times| - 1];
      ExploitAlone(l, start, front, window);
      OneMoreAlone(l, start, Exploit(front, Minute(window)), front, window, last);
      assert front + [last] == times;
    }
  }

  lemma OneMoreAlone(l: Limits, start: real, calls: seq<Call>, times: seq<real>, window: int, now: real)
    requires l.maxRequests == 1 && l.maxConcurrent > |times| + 1 && GrantedOnce(l, start, calls, times, window)
    ensures GrantedOnce(l, start, calls + [Acquire(if Minute(window)(now) then "a" else "b", now)], times + [now], window)
  {
    var c, more := Acquire(if Minute(window)(now) then "a" else "b", now), times + [now];
    assert (calls + [c])[..|calls|] == calls && more[..|times|] == times;
    if Window(now) == window {
      OwnCall(l, start, calls, c, times, window);
    } else {
      assert Only(calls + [c], "a") == Only(calls, "a");
      assert Visits(more, Minute(window)) == Visits(times, Minute(window));
    }
  }

  lemma OwnCall(l: Limits, start: real, calls: seq<Call>, c: Call, times: seq<real>, window: int)
    requires l.maxRequests == 1 && l.maxConcurrent > |times| + 1 && GrantedOnce(l, start, calls, times, window)
    requires c.Acquire? && c.actor == "a" && Window(c.now) == window
    ensures GrantedOnce(l, start, calls + [c], times + [c.now], window)
  {
    var own, more := Only(calls, "a"), times + [c.now];
    assert (calls + [c])[..|calls|] == calls && more[..|times|] == times && more[|times|] == c.now;
    assert (own + [c])[..|own|] == own && Only(calls + [c], "a") == own + [c];
    assert Run(l, start, own + [c]) == Step(l, Run(l, start, own), c);
    VisitedIffRead(more, window);
    VisitedOrSeen(times, window);
  }

  lemma VisitedOrSeen(times: seq<real>, window: int)
    ensures Visits(times, Minute(window)) == 0 ==> !Seen(times, window, Minute(window))
  {
    if Visits(times, Minute(window)) == 0 { NotSeen(times, window); }
  }

  lemma {:induction false} NotSeen(times: seq<real>, window: int)
    requires Visits(times, Minute(window)) == 0
    ensures !Seen(times, window, Minute(window))
  {
    VisitedIffRead(times, window);
  }

  /** Together it is granted again at the return. */
  lemma ReturnInterferes(start: real, times: seq<real>, i: nat, r: nat)
    requires i < r - 1 < r < |times| && Window(times[i]) == Window(times[r]) != Window(times[r - 1])
    ensures !Noninterfering(start, times)
  {
    var window, front := Window(times[r]), times[..r];
    var l, calls, c := Limits(1, r + 2), Exploit(front, Minute(window)), Acquire("a", times[r]);
    ExploitGrants(l, start, front, Minute(window));
    WindowIsLastReading(l, start, calls);
    ExploitStep(l, Run(l, start, calls), front, Minute(window), c);
    ExploitAlone(l, start, front, window);
    VisitedIffRead(front, window);
    assert front[i] == times[i] && front[r - 1] == times[r - 1];
    assert Readings(calls) + [times[r]] <= times;
    assert Acquired(l, Run(l, start, calls), "a", times[r]).1 == Allow;
    assert Acquired(l, Run(l, start, Only(calls, "a")), "a", times[r]).1 == RateExceeded;
  }

  /** Over the readings of a clock actors never affect one another exactly when no minute comes back. */
  lemma NoninterferenceIff(start: real, times: seq<real>)
    ensures Noninterfering(start, times) <==> NeverReturns(times)
  {
    if NeverReturns(times) {
      forall l, calls, actor, now | Readings(calls) + [now] <= times
        ensures Acquired(l, Run(l, start, calls), actor, now).1
             == Acquired(l, Run(l, start, Only(calls, actor)), actor, now).1
      {
        NeverReturnsPrefix(times, Readings(calls) + [now]);
        DecidedAlone(l, start, calls, actor, now);
      }
    }
    if Noninterfering(start, times) {
      forall i, j, k | 0 <= i < j < k < |times| && Window(times[i]) == Window(times[k])
        ensures Window(times[j]) == Window(times[i])
      {
        if Window(times[j]) != Window(times[i]) {
          var r := FirstReturn(times, j, k);
          ReturnInterferes(start, times, i, r);
        }
      }
    }
  }

  lemma NeverReturnsPrefix(times: seq<real>, prefix: seq<real>)
    requires NeverReturns(times) && prefix <= times
    ensures NeverReturns(prefix)
  {
    forall i, j, k | 0 <= i < j < k < |prefix| && Window(prefix[i]) == Window(prefix[k])
      ensures Window(prefix[j]) == Window(prefix[i])
    {
      assert prefix[i] == times[i] && prefix[j] == times[j] && prefix[k] == times[k];
    }
  }
}
