/** backend/shared_domain/scheduling.py: schedule expressions and the runs that fall due. */
module Scheduling {
  import opened Sequences
  import opened Text

  // ----- expressions -----

  const EVERY := "*/"
  const EACH_HOUR := " * * * *"

  predicate AllDigits(s: string) {
    forall i | 0 <= i < |s| :: '0' <= s[i] <= '9'
  }

  /** The text between the fixed parts of the minute pattern. */
  function Minutes(s: string): Option<string> {
    var n := |s| - |EACH_HOUR|;
    if n >= 2 && s[..2] == EVERY && s[n..] == EACH_HOUR && 1 <= n - 2 <= 4 && AllDigits(s[2..n]) then Some(s[2..n])
    else None
  }

  /** validate_schedule_expression */
  function Interval(expression: string): Result<int> {
    var normalized := Lower(Strip(expression));
    if normalized == "@hourly" then Ok(3600)
    else if normalized == "@daily" then Ok(86400)
    else
      var digits := Minutes(normalized);
      if digits.None? then Err("invalid_schedule_expression")
      else
        MinutesAreDigits(normalized);
        var minutes := DecimalValue(digits.value);
        if minutes <= 0 || minutes > 1440 then Err("invalid_schedule_expression") else Ok(minutes * 60)
  }

  lemma MinutesAreDigits(s: string)
    ensures Minutes(s).Some? ==> AllDigits(Minutes(s).value)
  {
  }

  /** Accepted expressions ask for one minute to one day. */
  lemma AcceptedInterval(expression: string)
    requires Interval(expression).Ok?
    ensures 60 <= Interval(expression).value <= 86400 && Interval(expression).value % 60 == 0
  {
  }

  lemma {:induction false} DecimalLength(n: nat)
    requires n < 10000
    ensures 1 <= |Decimal(n)| <= 4
  {
    if n >= 10 {
      assert |Decimal(n)| == |Decimal(n / 10)| + 1;
      if n >= 100 {
        assert |Decimal(n / 10)| == |Decimal(n / 10 / 10)| + 1;
        if n >= 1000 { assert |Decimal(n / 10 / 10)| == |Decimal(n / 10 / 10 / 10)| + 1; }
      }
    }
  }

  lemma MinutesBetween(digits: string)
    requires 1 <= |digits| <= 4 && AllDigits(digits)
    ensures var s := EVERY + digits + EACH_HOUR; Minutes(s) == Some(digits) && s[0] == '*' && IsStripped(s) && Lower(s) == s
  {
    var s := EVERY + digits + EACH_HOUR;
    var n := |digits| + 2;
    assert s[..2] == EVERY && s[n..] == EACH_HOUR && s[2..n] == digits;
    forall i | 0 <= i < |s| ensures LowerChar(s[i]) == s[i] {
      assert s[i] == if i < 2 then EVERY[i] else if i < n then digits[i - 2] else EACH_HOUR[i - n];
    }
    LowerFixed(s);
  }

  /** Every whole number of minutes up to a day can be asked for, in any spelling of one to four digits. */
  lemma EveryMinuteAccepted(digits: string)
    requires 1 <= |digits| <= 4 && AllDigits(digits)
    ensures var r := Interval(EVERY + digits + EACH_HOUR);
            if 1 <= DecimalValue(digits) <= 1440 then r == Ok(DecimalValue(digits) * 60) else r.Err?
  {
    MinutesBetween(digits);
    StripFixed(EVERY + digits + EACH_HOUR);
    IntervalOfMinutes(EVERY + digits + EACH_HOUR, digits);
  }

  lemma IntervalOfMinutes(s: string, digits: string)
    requires Lower(Strip(s)) == s && s != [] && s[0] == '*' && Minutes(s) == Some(digits) && AllDigits(digits)
    ensures var r := Interval(s);
            if 1 <= DecimalValue(digits) <= 1440 then r == Ok(DecimalValue(digits) * 60) else r.Err?
  {
  }

  lemma MinutesRoundTrip(m: nat)
    requires 1 <= m <= 1440
    ensures Interval(EVERY + Decimal(m) + EACH_HOUR) == Ok(m * 60)
  {
    DecimalLength(m);
    DecimalRoundTrip(m);
    EveryMinuteAccepted(Decimal(m));
  }

  // ----- due schedules -----

  datatype Schedule = Schedule(id: string, workspaceId: string, runType: string, enabled: bool,
                               nextRun: Option<int>, interval: Option<int>)

  datatype ScheduledRun = ScheduledRun(runId: string, workspaceId: string, runType: string, scheduleId: string)

  /** create_run_schedule */
  function Created(id: string, workspaceId: string, runType: string, expression: string, enabled: bool, now: int):
    Result<Schedule>
  {
    match Interval(expression)
    case Err(e) => Err(e)
    case Ok(interval) =>
      Ok(Schedule(id, workspaceId, runType, enabled, if enabled then Some(now + interval) else None, Some(interval)))
  }

  /** A schedule made from an accepted expression keeps to its interval and is not due at once. */
  lemma CreatedKeepsInterval(id: string, workspaceId: string, runType: string, expression: string, enabled: bool, now: int)
    requires Interval(expression).Ok?
    ensures var s := Created(id, workspaceId, runType, expression, enabled, now).value;
            && Every(s) == Interval(expression).value && 60 <= Every(s) <= 86400 && !Due(s, now)
            && (enabled ==> !Due(s, now + Every(s) - 1) && Due(s, now + Every(s)))
  {
    AcceptedInterval(expression);
  }

  /** The spacing actually used. */
  function Every(s: Schedule): (r: int)
    ensures r >= 60
  {
    if s.interval.Some? && s.interval.value > 60 then s.interval.value else 60
  }

  predicate Due(s: Schedule, now: int) {
    s.enabled && s.nextRun.Some? && s.nextRun.value <= now
  }

  function Ticked(s: Schedule, now: int): Schedule {
    if Due(s, now) then s.(nextRun := Some(now + Every(s))) else s
  }

  function AllTicked(rows: seq<Schedule>, now: int): (r: seq<Schedule>)
    ensures |r| == |rows|
  {
    seq(|rows|, i requires 0 <= i < |rows| => Ticked(rows[i], now))
  }

  /** One run per due schedule, in row order; ids are those new_ulid draws. */
  function RunsDue(rows: seq<Schedule>, now: int, ids: nat -> string): seq<ScheduledRun> {
    if rows == [] then []
    else
      var front, s := RunsDue(rows[..|rows| - 1], now, ids), rows[|rows| - 1];
      if Due(s, now) then front + [ScheduledRun(ids(|front|), s.workspaceId, s.runType, s.id)] else front
  }

  class ScheduleTable {
    var rows: seq<Schedule>
    var created: seq<ScheduledRun>

    constructor (rows: seq<Schedule>)
      ensures this.rows == rows && created == []
    {
      this.rows, created := rows, [];
    }

    /** enqueue_due_scheduled_runs */
    method EnqueueDueScheduledRuns(now: int, ids: nat -> string) returns (added: seq<ScheduledRun>)
      modifies this
      ensures rows == AllTicked(old(rows), now)
      ensures added == RunsDue(old(rows), now, ids) && created == old(created) + added
    {
      added := [];
      ghost var was := rows;
      for i := 0 to |rows|
        invariant |rows| == |was| && rows[i..] == was[i..] && created == old(created)
        invariant forall k | 0 <= k < i :: rows[k] == Ticked(was[k], now)
        invariant added == RunsDue(was[..i], now, ids)
      {
        assert was[..i + 1][..i] == was[..i];
        var row := rows[i];
        assert row == rows[i..][0] == was[i..][0] == was[i];
        if row.enabled && row.nextRun.Some? && row.nextRun.value <= now {
          added := added + [ScheduledRun(ids(|added|), row.workspaceId, row.runType, row.id)];
          var interval := if row.interval.Some? then row.interval.value else 60;
          rows := rows[i := row.(nextRun := Some(now + if interval > 60 then interval else 60))];
        }
        assert rows[i + 1..] == was[i + 1..];
      }
      assert was[..|was|] == was;
      created := created + added;
    }
  }

  lemma {:induction false} RunsDueLength(rows: seq<Schedule>, now: int, ids: nat -> string)
    ensures |RunsDue(rows, now, ids)| == DueCount(rows, now)
  {
    if rows != [] { RunsDueLength(rows[..|rows| - 1], now, ids); }
  }

  function DueCount(rows: seq<Schedule>, now: int): nat {
    if rows == [] then 0 else DueCount(rows[..|rows| - 1], now) + if Due(rows[|rows| - 1], now) then 1 else 0
  }

  // ----- whole runs of ticks -----

  function After(s: Schedule, ticks: seq<int>): Schedule {
    if ticks == [] then s else Ticked(After(s, ticks[..|ticks| - 1]), ticks[|ticks| - 1])
  }

  /** The ticks at which the schedule fires. */
  function Firings(s: Schedule, ticks: seq<int>): seq<int> {
    if ticks == [] then []
    else
      var front, now := ticks[..|ticks| - 1], ticks[|ticks| - 1];
      if Due(After(s, front), now) then Firings(s, front) + [now] else Firings(s, front)
  }

  function TableAfter(rows: seq<Schedule>, ticks: seq<int>): seq<Schedule> {
    if ticks == [] then rows else AllTicked(TableAfter(rows, ticks[..|ticks| - 1]), ticks[|ticks| - 1])
  }

  /** Schedules do not affect one another. */
  lemma {:induction false} SchedulesIndependent(rows: seq<Schedule>, ticks: seq<int>, i: nat)
    requires i < |rows|
    ensures |TableAfter(rows, ticks)| == |rows| && TableAfter(rows, ticks)[i] == After(rows[i], ticks)
  {
    if ticks != [] { SchedulesIndependent(rows, ticks[..|ticks| - 1], i); }
  }

  lemma {:induction false} NextAfterLastFiring(s: Schedule, ticks: seq<int>)
    ensures var f, r := Firings(s, ticks), After(s, ticks);
            && r == s.(nextRun := r.nextRun)
            && r.nextRun == if f == [] then s.nextRun else Some(f[|f| - 1] + Every(s))
  {
    if ticks != [] { NextAfterLastFiring(s, ticks[..|ticks| - 1]); }
  }

  ghost predicate Spaced(f: seq<int>, gap: int) {
    forall i | 0 < i < |f| :: f[i] >= f[i - 1] + gap
  }

  /** Firings are at least the interval apart, however the clock moves. */
  lemma {:induction false} FiringsSpaced(s: Schedule, ticks: seq<int>)
    ensures Spaced(Firings(s, ticks), Every(s))
  {
    if ticks != [] {
      FiringsSpaced(s, ticks[..|ticks| - 1]);
      NextAfterLastFiring(s, ticks[..|ticks| - 1]);
    }
  }

  /** How many of the times lie in [a, b]. */
  function CountIn(f: seq<int>, a: int, b: int): nat {
    if f == [] then 0 else CountIn(f[..|f| - 1], a, b) + if a <= f[|f| - 1] <= b then 1 else 0
  }

  /** n * gap, by addition. */
  function Times(n: nat, gap: int): int {
    if n == 0 then 0 else Times(n - 1, gap) + gap
  }

  lemma {:induction false} TimesIsProduct(n: nat, gap: int)
    ensures Times(n, gap) == n * gap
  {
    if n > 0 {
      TimesIsProduct(n - 1, gap);
      assert (n - 1) * gap + gap == n * gap;
    }
  }

  /** The last of c times in [a, b] comes at least c - 1 gaps after a. */
  ghost predicate LastCounted(f: seq<int>, gap: int, a: int, b: int, c: nat, last: int) {
    c > 0 && last in f && a <= last <= b && Times(c - 1, gap) <= last - a && last <= f[|f| - 1]
  }

  lemma {:induction false} SpacedCount(f: seq<int>, gap: int, a: int, b: int) returns (last: int)
    requires Spaced(f, gap) && gap > 0 && CountIn(f, a, b) > 0
    ensures LastCounted(f, gap, a, b, CountIn(f, a, b), last)
  {
    var front, now := f[..|f| - 1], f[|f| - 1];
    if CountIn(front, a, b) == 0 {
      last := now;
      assert Times(0, gap) == 0;
    } else {
      last := SpacedCount(front, gap, a, b);
      last := NextCounted(f, gap, a, b, CountIn(front, a, b), last);
    }
  }

  lemma NextCounted(f: seq<int>, gap: int, a: int, b: int, c: nat, before: int) returns (last: int)
    requires |f| > 1 && Spaced(f, gap) && gap > 0 && LastCounted(f[..|f| - 1], gap, a, b, c, before)
    ensures LastCounted(f, gap, a, b, c + if a <= f[|f| - 1] <= b then 1 else 0, last)
  {
    var now := f[|f| - 1];
    assert now >= f[|f| - 2] + gap && before <= f[|f| - 2];
    last := if a <= now <= b then now else before;
    assert before in f && now in f;
    assert Times(c, gap) == Times(c - 1, gap) + gap;
  }

  /** In any interval [a, b] a schedule fires at most 1 + (b - a) / I times. */
  lemma FiringsBounded(s: Schedule, ticks: seq<int>, a: int, b: int)
    requires a <= b
    ensures CountIn(Firings(s, ticks), a, b) <= 1 + (b - a) / Every(s)
  {
    FiringsSpaced(s, ticks);
    SpacedBounded(Firings(s, ticks), Every(s), a, b);
  }

  lemma SpacedBounded(f: seq<int>, gap: int, a: int, b: int)
    requires Spaced(f, gap) && gap > 0 && a <= b
    ensures CountIn(f, a, b) <= 1 + (b - a) / gap
  {
    if CountIn(f, a, b) > 0 {
      var last := SpacedCount(f, gap, a, b);
      CountedBounded(CountIn(f, a, b), gap, last - a, b - a);
    }
  }

  lemma CountedBounded(c: nat, gap: int, reached: int, length: int)
    requires c > 0 && gap > 0 && Times(c - 1, gap) <= reached <= length
    ensures c <= 1 + length / gap
  {
    TimesIsProduct(c - 1, gap);
    QuotientBound(c - 1, gap, length);
  }

  lemma QuotientBound(n: int, d: int, m: int)
    requires d > 0 && n * d <= m
    ensures n <= m / d
  {
    if n > m / d { ProductsOrdered(m / d + 1, n, d); }
  }

  lemma ProductsOrdered(a: int, b: int, d: int)
    requires a <= b && d > 0
    ensures a * d <= b * d
  {
  }

  /** Ticks never go back and come at most d apart. */
  ghost predicate Steady(ticks: seq<int>, d: int) {
    forall i | 0 < i < |ticks| :: ticks[i - 1] <= ticks[i] <= ticks[i - 1] + d
  }

  /** At the last tick an enabled schedule is never overdue: it has just fired, or its next run lies ahead. */
  lemma NeverOverdue(s: Schedule, ticks: seq<int>)
    requires ticks != [] && s.enabled && s.nextRun.Some?
    ensures var now := ticks[|ticks| - 1]; After(s, ticks).nextRun.Some? && After(s, ticks).nextRun.value > now
  {
    NextAfterLastFiring(s, ticks[..|ticks| - 1]);
  }

  /** With ticks at most d apart, consecutive firings are less than I + d apart. */
  lemma {:induction false} GapsBounded(s: Schedule, ticks: seq<int>, d: int, i: nat)
    requires Steady(ticks, d) && s.enabled && s.nextRun.Some? && 0 < i < |Firings(s, ticks)|
    ensures Firings(s, ticks)[i] < Firings(s, ticks)[i - 1] + Every(s) + d
  {
    var front, now := ticks[..|ticks| - 1], ticks[|ticks| - 1];
    forall k | 0 < k < |front| ensures front[k - 1] <= front[k] <= front[k - 1] + d {
      assert ticks[k - 1] <= ticks[k] <= ticks[k - 1] + d;
    }
    if i < |Firings(s, front)| {
      GapsBounded(s, front, d, i);
    } else {
      NextAfterLastFiring(s, front);
      NeverOverdue(s, front);
      assert now <= ticks[|ticks| - 2] + d && front[|front| - 1] == ticks[|ticks| - 2];
    }
  }
}
