/** backend/workers/run_processor.py and service.py: which queued run is processed next, and the worker tick. */
module RunQueue {
  import opened Sequences
  import opened Text
  import opened RunSteps
  import opened Scheduling

  datatype RunRow = RunRow(id: string, workspaceId: string, runType: string, status: Status)

  function RowId(r: RunRow): string { r.id }

  function RunningIn(rows: seq<RunRow>, workspaceId: string): nat {
    if rows == [] then 0
    else
      RunningIn(rows[..|rows| - 1], workspaceId)
      + if rows[|rows| - 1].workspaceId == workspaceId && rows[|rows| - 1].status == Running then 1 else 0
  }

  function Limit(maxActive: int): (r: nat)
    ensures r >= 1
  {
    if maxActive > 1 then maxActive else 1
  }

  /** A queued run whose workspace has spare capacity. */
  predicate Eligible(rows: seq<RunRow>, limit: nat, r: RunRow) {
    r in rows && r.status == Queued && RunningIn(rows, r.workspaceId) < limit
  }

  function QueuedRows(rows: seq<RunRow>): seq<RunRow> {
    if rows == [] then []
    else
      var front, last := QueuedRows(rows[..|rows| - 1]), rows[|rows| - 1];
      if last.status == Queued then front + [last] else front
  }

  lemma {:induction false} QueuedRowsContents(rows: seq<RunRow>, r: RunRow)
    ensures r in QueuedRows(rows) <==> r in rows && r.status == Queued
  {
    if rows != [] {
      QueuedRowsContents(rows[..|rows| - 1], r);
      FrontMultiset(rows);
    }
  }

  ghost predicate DistinctIds(rows: seq<RunRow>) {
    forall i, j | 0 <= i < j < |rows| :: rows[i].id != rows[j].id
  }

  lemma QueuedSorted(rows: seq<RunRow>, s: seq<RunRow>)
    requires DistinctIds(rows) && s == SortBy(RowId, QueuedRows(rows))
    ensures forall r :: r in s <==> r in rows && r.status == Queued
    ensures StrictlySorted(RowId, s)
  {
    SortContents(RowId, QueuedRows(rows));
    forall r ensures r in s <==> r in rows && r.status == Queued {
      QueuedRowsContents(rows, r);
      assert r in s <==> r in multiset(QueuedRows(rows));
    }
    QueuedDistinct(rows);
    SortSorted(RowId, QueuedRows(rows));
  }

  lemma {:induction false} QueuedDistinct(rows: seq<RunRow>)
    requires DistinctIds(rows)
    ensures DistinctKeys(RowId, QueuedRows(rows))
  {
    if rows != [] {
      var front, last := rows[..|rows| - 1], rows[|rows| - 1];
      QueuedDistinct(front);
      var q := QueuedRows(front);
      forall i | 0 <= i < |q| ensures q[i].id != last.id {
        QueuedRowsContents(front, q[i]);
        var j :| 0 <= j < |front| && front[j] == q[i];
        assert rows[j].id != rows[|rows| - 1].id;
      }
    }
  }

  /** process_next_queued_run's choice: the least eligible run, None exactly when there is none. */
  ghost predicate IsNext(rows: seq<RunRow>, limit: nat, r: Option<RunRow>) {
    match r
    case None => forall x | x in rows :: !Eligible(rows, limit, x)
    case Some(least) => Eligible(rows, limit, least)
                        && forall x | x in rows && Eligible(rows, limit, x) :: AtMost(least.id, x.id)
  }

  lemma FirstFittingIsNext(rows: seq<RunRow>, limit: nat, queued: seq<RunRow>, i: nat)
    requires StrictlySorted(RowId, queued) && forall r :: r in queued <==> r in rows && r.status == Queued
    requires i < |queued| && RunningIn(rows, queued[i].workspaceId) < limit
    requires forall k | 0 <= k < i :: RunningIn(rows, queued[k].workspaceId) >= limit
    ensures IsNext(rows, limit, Some(queued[i]))
  {
    assert queued[i] in queued;
    forall x | x in rows && Eligible(rows, limit, x) ensures AtMost(queued[i].id, x.id) {
      assert x in queued;
      var k :| 0 <= k < |queued| && queued[k] == x;
      if i < k { assert Less(RowId(queued[i]), RowId(queued[k])); }
    }
  }

  method NextQueuedRun(rows: seq<RunRow>, maxActive: int) returns (r: Option<RunRow>)
    requires DistinctIds(rows)
    ensures IsNext(rows, Limit(maxActive), r)
  {
    var queued := SortBy(RowId, QueuedRows(rows));
    QueuedSorted(rows, queued);
    var limit := if maxActive > 1 then maxActive else 1;
    for i := 0 to |queued|
      invariant forall k | 0 <= k < i :: RunningIn(rows, queued[k].workspaceId) >= limit
    {
      if RunningIn(rows, queued[i].workspaceId) < limit {
        FirstFittingIsNext(rows, limit, queued, i);
        return Some(queued[i]);
      }
    }
    forall x | x in rows ensures !Eligible(rows, limit, x) {
      if x.status == Queued { assert x in queued; }
    }
    r := None;
  }

  // ----- the tick -----

  /** The ids of the eligible runs. */
  function EligibleIds(rows: seq<RunRow>, limit: nat): set<string> {
    set r | r in rows && Eligible(rows, limit, r) :: r.id
  }

  lemma NextIsLeast(rows: seq<RunRow>, limit: nat, r: Option<RunRow>)
    requires IsNext(rows, limit, r)
    ensures r.None? <==> EligibleIds(rows, limit) == {}
    ensures r.Some? ==> r.value.id == LeastOf(EligibleIds(rows, limit))
  {
    if r.Some? {
      assert r.value.id in EligibleIds(rows, limit);
      LeastOfIsLeast(EligibleIds(rows, limit), r.value.id);
    }
  }

  /** How the processing of one run ends: with a status, or with an exception that leaves the handler. */
  datatype Verdict = Done(succeeded: bool) | Escapes

  type Verdicts = RunRow -> Verdict

  function FinalStatus(v: Verdict): Status
    requires v.Done?
  {
    if v.succeeded then Succeeded else Failed
  }

  function Finished(rows: seq<RunRow>, id: string, status: Status): (r: seq<RunRow>)
    ensures |r| == |rows|
  {
    seq(|rows|, i requires 0 <= i < |rows| => if rows[i].id == id then rows[i].(status := status) else rows[i])
  }

  /** Runs processed one after the other; escaped when an exception left the handler. */
  datatype Drain = Drain(rows: seq<RunRow>, processed: seq<string>, escaped: bool)

  /** The least of two candidates. */
  function Better(a: Option<RunRow>, b: RunRow): Option<RunRow> {
    if a.Some? && Less(a.value.id, b.id) then a else Some(b)
  }

  /** The eligible row of least id among these rows; capacity is that of the whole table. */
  function LeastEligible(rows: seq<RunRow>, table: seq<RunRow>, limit: nat): Option<RunRow> {
    if rows == [] then None
    else
      var front, last := LeastEligible(rows[..|rows| - 1], table, limit), rows[|rows| - 1];
      if last.status == Queued && RunningIn(table, last.workspaceId) < limit then Better(front, last) else front
  }

  lemma {:induction false} LeastEligibleFacts(rows: seq<RunRow>, table: seq<RunRow>, limit: nat)
    requires forall x | x in rows :: x in table
    ensures var r := LeastEligible(rows, table, limit);
            && (r.None? ==> forall x | x in rows :: !Eligible(table, limit, x))
            && (r.Some? ==> r.value in rows && Eligible(table, limit, r.value)
                            && forall x | x in rows && Eligible(table, limit, x) :: AtMost(r.value.id, x.id))
  {
    if rows != [] {
      var front, last := rows[..|rows| - 1], rows[|rows| - 1];
      assert rows == front + [last] && last in rows;
      assert forall x | x in rows :: x in front || x == last;
      LeastEligibleFacts(front, table, limit);
      var a, r := LeastEligible(front, table, limit), LeastEligible(rows, table, limit);
      if a.Some? && r == Some(last) {
        LessTotal(a.value.id, last.id);
        forall x | x in front && Eligible(table, limit, x) ensures AtMost(last.id, x.id) {
          if last.id != a.value.id && a.value.id != x.id { LessTransitive(last.id, a.value.id, x.id); }
        }
      }
    }
  }

  lemma LeastEligibleIsNext(rows: seq<RunRow>, limit: nat)
    ensures IsNext(rows, limit, LeastEligible(rows, rows, limit))
  {
    LeastEligibleFacts(rows, rows, limit);
  }

  /** There is only one choice. */
  lemma NextUnique(rows: seq<RunRow>, limit: nat, r: Option<RunRow>)
    requires DistinctIds(rows) && IsNext(rows, limit, r)
    ensures r == LeastEligible(rows, rows, limit)
  {
    var x := LeastEligible(rows, rows, limit);
    LeastEligibleIsNext(rows, limit);
    if r.Some? && x.Some? {
      if r.value.id != x.value.id { LessAsymmetric(r.value.id, x.value.id); }
      var i :| 0 <= i < |rows| && rows[i] == r.value;
      var j :| 0 <= j < |rows| && rows[j] == x.value;
    }
  }

  /** At most n runs, least id first, until no run is eligible. */
  function Drained(rows: seq<RunRow>, limit: nat, verdicts: Verdicts, n: nat): Drain
    decreases n
  {
    var r := LeastEligible(rows, rows, limit);
    if n == 0 || r.None? then Drain(rows, [], false)
    else match verdicts(r.value)
      case Escapes => Drain(rows, [], true)
      case Done(_) =>
        Prepend(r.value.id, Drained(Finished(rows, r.value.id, FinalStatus(verdicts(r.value))), limit, verdicts, n - 1))
  }

  lemma DrainedNext(rows: seq<RunRow>, limit: nat, verdicts: Verdicts, n: nat, r: RunRow)
    requires n > 0 && LeastEligible(rows, rows, limit) == Some(r) && verdicts(r).Done?
    ensures Drained(rows, limit, verdicts, n)
         == Prepend(r.id, Drained(Finished(rows, r.id, FinalStatus(verdicts(r))), limit, verdicts, n - 1))
  {
  }

  function Prepend(id: string, d: Drain): Drain {
    Drain(d.rows, [id] + d.processed, d.escaped)
  }

  datatype Database = Database(rows: seq<RunRow>, schedules: seq<Schedule>)

  function QueuedRun(r: ScheduledRun): RunRow {
    RunRow(r.runId, r.workspaceId, r.runType, Queued)
  }

  /** The database once the due schedules are enqueued. */
  function Enqueued(db: Database, now: int, ids: nat -> string): Database {
    Database(db.rows + Mapped(QueuedRun, RunsDue(db.schedules, now, ids)), AllTicked(db.schedules, now))
  }

  function AtLeastZero(n: int): nat { if n > 0 then n else 0 }

  /** process_queued_runs_once: the database afterwards and the number returned; an escaping exception rolls back. */
  function Tick(db: Database, now: int, ids: nat -> string, maxRuns: int, maxActive: int, verdicts: Verdicts):
    (Database, Option<nat>)
  {
    var e := Enqueued(db, now, ids);
    var d := Drained(e.rows, Limit(maxActive), verdicts, AtLeastZero(maxRuns));
    if d.escaped then (db, None) else (Database(d.rows, e.schedules), Some(|d.processed|))
  }

  class Worker {
    /** the committed database */
    var db: Database

    constructor (db: Database)
      ensures this.db == db
    {
      this.db := db;
    }

    method ProcessQueuedRunsOnce(now: int, ids: nat -> string, maxRuns: int, maxActive: int, verdicts: Verdicts)
      returns (r: Option<nat>)
      requires DistinctIds(Enqueued(db, now, ids).rows)
      modifies this
      ensures (db, r) == Tick(old(db), now, ids, maxRuns, maxActive, verdicts)
    {
      var table := new ScheduleTable(db.schedules);
      var added := table.EnqueueDueScheduledRuns(now, ids);
      var rows, processed, escaped := ProcessUpTo(db.rows + Mapped(QueuedRun, added), maxRuns, maxActive, verdicts);
      if escaped { return None; }
      db := Database(rows, table.rows);
      r := Some(processed);
    }

    /** The loop of the tick. */
    method ProcessUpTo(start: seq<RunRow>, maxRuns: int, maxActive: int, verdicts: Verdicts)
      returns (rows: seq<RunRow>, processed: nat, escaped: bool)
      requires DistinctIds(start)
      ensures var d := Drained(start, Limit(maxActive), verdicts, AtLeastZero(maxRuns));
              rows == d.rows && processed == |d.processed| && escaped == d.escaped
    {
      rows, processed := start, 0;
      ghost var limit, most := Limit(maxActive), AtLeastZero(maxRuns);
      ghost var done: seq<string> := [];
      ghost var whole := Drained(start, limit, verdicts, most);
      ghost var rest := whole;
      PrependNothing(whole);
      while processed < maxRuns
        invariant processed <= most && processed == |done| && DistinctIds(rows)
        invariant rest == Drained(rows, limit, verdicts, most - processed) && whole == PrependAll(done, rest)
      {
        var next := NextQueuedRun(rows, maxActive);
        NextUnique(rows, limit, next);
        if next.None? { break; }
        var verdict := verdicts(next.value);
        if verdict.Escapes? {
          assert rest == Drain(rows, [], true);
          return rows, processed, true;
        }
        var after := Finished(rows, next.value.id, FinalStatus(verdict));
        DrainedNext(rows, limit, verdicts, most - processed, next.value);
        rest := Drained(after, limit, verdicts, most - processed - 1);
        PrependMore(done, next.value.id, rest);
        rows, done, processed := after, done + [next.value.id], processed + 1;
      }
      assert rest == Drain(rows, [], false);
      escaped := false;
    }
  }

  lemma PrependNothing(d: Drain)
    ensures PrependAll([], d) == d
  {
  }

  function PrependAll(ids: seq<string>, d: Drain): Drain {
    Drain(d.rows, ids + d.processed, d.escaped)
  }

  lemma PrependMore(done: seq<string>, id: string, d: Drain)
    ensures PrependAll(done, Prepend(id, d)) == PrependAll(done + [id], d)
  {
    ConcatAssociative(done, [id], d.processed);
  }

  // ----- what a tick does -----

  /** Processing a queued run changes no workspace's count of running runs. */
  lemma {:induction false} RunningKept(rows: seq<RunRow>, id: string, status: Status, workspaceId: string)
    requires status != Running && forall i | 0 <= i < |rows| && rows[i].id == id :: rows[i].status != Running
    ensures RunningIn(Finished(rows, id, status), workspaceId) == RunningIn(rows, workspaceId)
  {
    if rows != [] {
      var front := rows[..|rows| - 1];
      RunningKept(front, id, status, workspaceId);
      assert Finished(rows, id, status)[..|rows| - 1] == Finished(front, id, status);
    }
  }

  function QueuedCount(rows: seq<RunRow>): nat {
    if rows == [] then 0 else QueuedCount(rows[..|rows| - 1]) + if rows[|rows| - 1].status == Queued then 1 else 0
  }

  lemma {:induction false} QueueShrinks(rows: seq<RunRow>, k: nat, status: Status)
    requires DistinctIds(rows) && k < |rows| && rows[k].status == Queued && status != Queued
    ensures QueuedCount(Finished(rows, rows[k].id, status)) == QueuedCount(rows) - 1
  {
    var front, id := rows[..|rows| - 1], rows[k].id;
    var after := Finished(rows, id, status);
    assert after[..|rows| - 1] == Finished(front, id, status);
    if k < |rows| - 1 {
      QueueShrinks(front, k, status);
    } else {
      assert Finished(front, id, status) == front;
    }
  }

  lemma RowIsOnly(rows: seq<RunRow>, r: RunRow, i: nat)
    requires DistinctIds(rows) && r in rows && i < |rows| && rows[i].id == r.id
    ensures rows[i] == r
  {
    var k :| 0 <= k < |rows| && rows[k] == r;
  }

  lemma FinishedEligible(rows: seq<RunRow>, limit: nat, r: RunRow, status: Status)
    requires DistinctIds(rows) && Eligible(rows, limit, r) && (status == Succeeded || status == Failed)
    ensures EligibleIds(Finished(rows, r.id, status), limit) == EligibleIds(rows, limit) - {r.id}
  {
    var after := Finished(rows, r.id, status);
    forall i | 0 <= i < |rows| && rows[i].id == r.id ensures rows[i].status != Running { RowIsOnly(rows, r, i); }
    forall x | x in after && Eligible(after, limit, x) ensures x.id in EligibleIds(rows, limit) - {r.id} {
      var i :| 0 <= i < |rows| && after[i] == x;
      RunningKept(rows, r.id, status, x.workspaceId);
      assert rows[i] in rows && x == rows[i];
    }
    forall x | x in rows && Eligible(rows, limit, x) && x.id != r.id ensures x.id in EligibleIds(after, limit) {
      var i :| 0 <= i < |rows| && rows[i] == x;
      RunningKept(rows, r.id, status, x.workspaceId);
      assert after[i] == x && x in after;
    }
  }

  function Prefix<T>(s: seq<T>, n: nat): seq<T> {
    if n < |s| then s[..n] else s
  }

  lemma PrefixCons<T>(x: T, s: seq<T>, n: nat)
    requires n > 0
    ensures Prefix([x] + s, n) == [x] + Prefix(s, n - 1)
  {
  }

  /** One turn of a drain: one queued run finished, one eligible run fewer. */
  lemma DrainStep(rows: seq<RunRow>, limit: nat, r: RunRow, status: Status)
    requires DistinctIds(rows) && IsNext(rows, limit, Some(r)) && (status == Succeeded || status == Failed)
    ensures var after := Finished(rows, r.id, status);
            && DistinctIds(after) && EligibleIds(after, limit) == EligibleIds(rows, limit) - {r.id}
            && QueuedCount(after) == QueuedCount(rows) - 1
  {
    var k :| 0 <= k < |rows| && rows[k] == r;
    FinishedEligible(rows, limit, r, status);
    QueueShrinks(rows, k, status);
  }

  /** ... and no workspace's count of running runs touched. */
  lemma DrainStepKeepsRunning(rows: seq<RunRow>, limit: nat, r: RunRow, status: Status, workspaceId: string)
    requires DistinctIds(rows) && IsNext(rows, limit, Some(r)) && status != Running
    ensures RunningIn(Finished(rows, r.id, status), workspaceId) == RunningIn(rows, workspaceId)
  {
    forall i | 0 <= i < |rows| && rows[i].id == r.id ensures rows[i].status != Running { RowIsOnly(rows, r, i); }
    RunningKept(rows, r.id, status, workspaceId);
  }

  function Members(s: seq<string>): set<string> {
    set x | x in s
  }

  lemma MembersCons(x: string, s: seq<string>)
    ensures Members([x] + s) == {x} + Members(s)
  {
  }

  /** The runs processed are the first n of the eligible ones, by id, and no longer eligible. */
  ghost predicate Fifo(eligible: set<string>, n: nat, processed: seq<string>, left: set<string>) {
    processed == Prefix(SortedOf(eligible), n) && left == eligible - Members(processed)
  }

  lemma FifoCons(eligible: set<string>, n: nat, id: string, rest: seq<string>, left: set<string>)
    requires n > 0 && eligible != {} && id == LeastOf(eligible) && Fifo(eligible - {id}, n - 1, rest, left)
    ensures Fifo(eligible, n, [id] + rest, left)
  {
    PrefixCons(id, SortedOf(eligible - {id}), n);
    MembersCons(id, rest);
    assert eligible - {id} - Members(rest) == eligible - ({id} + Members(rest));
  }

  ghost predicate DrainFifo(rows: seq<RunRow>, limit: nat, d: Drain, n: nat) {
    !d.escaped ==> Fifo(EligibleIds(rows, limit), n, d.processed, EligibleIds(d.rows, limit))
  }

  /** A drain processes the eligible runs of the start in id order, as many as allowed. */
  lemma {:induction false} DrainIsFifo(rows: seq<RunRow>, limit: nat, verdicts: Verdicts, n: nat)
    requires DistinctIds(rows)
    ensures DrainFifo(rows, limit, Drained(rows, limit, verdicts, n), n)
    decreases n
  {
    var r := LeastEligible(rows, rows, limit);
    LeastEligibleIsNext(rows, limit);
    NextIsLeast(rows, limit, r);
    if n > 0 && r.Some? && verdicts(r.value).Done? {
      var status := FinalStatus(verdicts(r.value));
      var after := Finished(rows, r.value.id, status);
      var rest := Drained(after, limit, verdicts, n - 1);
      DrainStep(rows, limit, r.value, status);
      DrainIsFifo(after, limit, verdicts, n - 1);
      NextDrainIsFifo(rows, after, limit, r.value.id, rest, n);
      DrainedNext(rows, limit, verdicts, n, r.value);
    } else if n == 0 || r.None? {
      NothingDrained(EligibleIds(rows, limit), n);
    }
  }

  lemma NextDrainIsFifo(rows: seq<RunRow>, after: seq<RunRow>, limit: nat, id: string, rest: Drain, n: nat)
    requires n > 0 && EligibleIds(rows, limit) != {} && id == LeastOf(EligibleIds(rows, limit))
    requires EligibleIds(after, limit) == EligibleIds(rows, limit) - {id} && DrainFifo(after, limit, rest, n - 1)
    ensures DrainFifo(rows, limit, Prepend(id, rest), n)
  {
    if !rest.escaped { FifoCons(EligibleIds(rows, limit), n, id, rest.processed, EligibleIds(rest.rows, limit)); }
  }

  lemma NothingDrained(eligible: set<string>, n: nat)
    requires n == 0 || eligible == {}
    ensures Fifo(eligible, n, [], eligible)
  {
  }

  /** A drain moves no workspace's running count. */
  lemma {:induction false} DrainKeepsRunning(rows: seq<RunRow>, limit: nat, verdicts: Verdicts, n: nat, workspaceId: string)
    requires DistinctIds(rows)
    ensures RunningIn(Drained(rows, limit, verdicts, n).rows, workspaceId) == RunningIn(rows, workspaceId)
    decreases n
  {
    var r := LeastEligible(rows, rows, limit);
    LeastEligibleIsNext(rows, limit);
    if n > 0 && r.Some? && verdicts(r.value).Done? {
      var after := Finished(rows, r.value.id, FinalStatus(verdicts(r.value)));
      DrainStepKeepsRunning(rows, limit, r.value, FinalStatus(verdicts(r.value)), workspaceId);
      DrainKeepsRunning(after, limit, verdicts, n - 1, workspaceId);
    }
  }

  /** A drain shrinks the queue by exactly the runs it processed. */
  lemma {:induction false} DrainShrinksQueue(rows: seq<RunRow>, limit: nat, verdicts: Verdicts, n: nat)
    requires DistinctIds(rows)
    ensures QueuedCount(Drained(rows, limit, verdicts, n).rows) + |Drained(rows, limit, verdicts, n).processed|
         == QueuedCount(rows)
    decreases n
  {
    var r := LeastEligible(rows, rows, limit);
    LeastEligibleIsNext(rows, limit);
    if n > 0 && r.Some? && verdicts(r.value).Done? {
      var after := Finished(rows, r.value.id, FinalStatus(verdicts(r.value)));
      DrainStep(rows, limit, r.value, FinalStatus(verdicts(r.value)));
      DrainShrinksQueue(after, limit, verdicts, n - 1);
      DrainedNext(rows, limit, verdicts, n, r.value);
    }
  }

  /** While a run is being processed its workspace stays within the limit. */
  lemma RunningWithinLimit(rows: seq<RunRow>, limit: nat, r: RunRow)
    requires DistinctIds(rows) && Eligible(rows, limit, r)
    ensures RunningIn(Finished(rows, r.id, Running), r.workspaceId) <= limit
  {
    var k :| 0 <= k < |rows| && rows[k] == r;
    OneMoreRunning(rows, k);
  }

  lemma {:induction false} OneMoreRunning(rows: seq<RunRow>, k: nat)
    requires DistinctIds(rows) && k < |rows| && rows[k].status != Running
    ensures RunningIn(Finished(rows, rows[k].id, Running), rows[k].workspaceId) == RunningIn(rows, rows[k].workspaceId) + 1
  {
    var front, id := rows[..|rows| - 1], rows[k].id;
    assert Finished(rows, id, Running)[..|rows| - 1] == Finished(front, id, Running);
    if k < |rows| - 1 { OneMoreRunning(front, k); } else { assert Finished(front, id, Running) == front; }
  }

  /** The tick, for every database: what it returns is the lesser of the allowance and the number of eligible runs
      once due schedules are enqueued; fewer than allowed means none is left; the queue shrinks by that number. */
  lemma TickDrains(db: Database, now: int, ids: nat -> string, maxRuns: int, maxActive: int, verdicts: Verdicts)
    requires DistinctIds(Enqueued(db, now, ids).rows)
    ensures var e, limit, n := Enqueued(db, now, ids), Limit(maxActive), AtLeastZero(maxRuns);
            var (after, r) := Tick(db, now, ids, maxRuns, maxActive, verdicts);
            var ready := EligibleIds(e.rows, limit);
            if r.None? then after == db
            else && r.value == (if n < |ready| then n else |ready|)
                 && QueuedCount(after.rows) == QueuedCount(e.rows) - r.value
                 && (r.value < n ==> EligibleIds(after.rows, limit) == {})
                 && after.schedules == AllTicked(db.schedules, now)
  {
    var e, limit, n := Enqueued(db, now, ids), Limit(maxActive), AtLeastZero(maxRuns);
    var ready := EligibleIds(e.rows, limit);
    DrainIsFifo(e.rows, limit, verdicts, n);
    DrainShrinksQueue(e.rows, limit, verdicts, n);
    SortedOfLength(ready);
    SortedOfContents(ready);
  }

  lemma {:induction false} SortedOfLength(s: set<string>)
    ensures |SortedOf(s)| == |s|
  {
    if s != {} { SortedOfLength(s - {LeastOf(s)}); }
  }
}
