/** backend/shared_domain/audit_outbox.py: retrying delivery of audit events. A row is pending until the sink takes it
    or its attempts run out; then it is sent or failed for good. */
module AuditOutbox {
  import opened Sequences
  import opened Text

  datatype Status = Pending | Sent | Failed

  datatype Row = Row(id: string, service: string, status: Status, attempts: int, lastError: Option<string>)

  /** What one call of the sink does: deliver, raise a delivery error, or raise anything else. */
  datatype Emission = Delivered | Refused(error: string) | Broken

  function Enqueued(id: string, service: string): Row {
    Row(id, service, Pending, 0, None)
  }

  /** A row after one attempt. */
  function Attempted(r: Row, e: Emission, maxAttempts: int): Row {
    match e
    case Delivered => r.(status := Sent, attempts := r.attempts + 1, lastError := None)
    case Refused(error) =>
      r.(status := if r.attempts + 1 >= maxAttempts then Failed else r.status,
         attempts := r.attempts + 1, lastError := Some(error))
    case Broken => r
  }

  /** The rows a dispatch selects from. */
  predicate Deliverable(r: Row, service: string, maxAttempts: int) {
    r.service == service && r.status == Pending && r.attempts < maxAttempts
  }

  function DeliverableIds(rows: seq<Row>, service: string, maxAttempts: int): set<string> {
    set r | r in rows && Deliverable(r, service, maxAttempts) :: r.id
  }

  /** The query: ordered by id, limited. */
  function Batch(rows: seq<Row>, service: string, maxBatch: nat, maxAttempts: int): seq<string> {
    var ids := SortedOf(DeliverableIds(rows, service, maxAttempts));
    if maxBatch < |ids| then ids[..maxBatch] else ids
  }

  function Updated(rows: seq<Row>, id: string, e: Emission, maxAttempts: int): (r: seq<Row>)
    ensures |r| == |rows|
  {
    seq(|rows|, i requires 0 <= i < |rows| => if rows[i].id == id then Attempted(rows[i], e, maxAttempts) else rows[i])
  }

  /** How many rows can still be delivered: _count_pending_outbox_rows. */
  function Backlog(rows: seq<Row>, service: string, maxAttempts: int): nat {
    if rows == [] then 0
    else
      Backlog(rows[..|rows| - 1], service, maxAttempts)
      + if Deliverable(rows[|rows| - 1], service, maxAttempts) then 1 else 0
  }

  /** The sink's behaviour in one dispatch, by the number of the call. */
  type Sink = nat -> Emission

  /** Attempts in order; None when an exception other than a delivery error ends the dispatch uncommitted. */
  function Attempts(rows: seq<Row>, ids: seq<string>, sink: Sink, maxAttempts: int): Option<seq<Row>> {
    if ids == [] then Some(rows)
    else
      var n := |ids| - 1;
      match Attempts(rows, ids[..n], sink, maxAttempts)
      case None => None
      case Some(front) => if sink(n).Broken? then None else Some(Updated(front, ids[n], sink(n), maxAttempts))
  }

  datatype Summary = Summary(attempted: nat, sent: nat, failed: nat, pending: nat)

  function SentIn(sink: Sink, n: nat): (r: nat)
    ensures r <= n
  {
    if n == 0 then 0 else SentIn(sink, n - 1) + if sink(n - 1).Delivered? then 1 else 0
  }

  class Outbox {
    var rows: seq<Row>
    /** the ids of all emit calls whose outcome was committed, in order */
    ghost var log: seq<string>

    constructor ()
      ensures rows == [] && log == []
    {
      rows, log := [], [];
    }

    method Enqueue(id: string, service: string)
      modifies this
      ensures rows == old(rows) + [Enqueued(id, service)] && log == old(log)
    {
      rows := rows + [Row(id, service, Pending, 0, None)];
    }

    /** dispatch_audit_outbox_batch: None when the exception of a broken sink propagates. */
    method Dispatch(service: string, maxBatch: nat, maxAttempts: int, sink: Sink) returns (r: Option<Summary>)
      modifies this
      ensures var ids := Batch(old(rows), service, maxBatch, maxAttempts);
              var after := Attempts(old(rows), ids, sink, maxAttempts);
              if after.None? then r.None? && rows == old(rows) && log == old(log)
              else && rows == after.value && log == old(log) + ids
                   && r == Some(Summary(|ids|, SentIn(sink, |ids|), |ids| - SentIn(sink, |ids|),
                                        Backlog(rows, service, maxAttempts)))
    {
      var ids := Batch(rows, service, maxBatch, maxAttempts);
      var session := rows;
      var attempted, sent, failed := 0, 0, 0;
      while attempted < |ids|
        invariant attempted <= |ids| && sent == SentIn(sink, attempted) && sent + failed == attempted
        invariant Attempts(rows, ids[..attempted], sink, maxAttempts) == Some(session)
        invariant rows == old(rows) && log == old(log)
      {
        var id, emission := ids[attempted], sink(attempted);
        assert ids[..attempted + 1][..attempted] == ids[..attempted];
        if emission.Broken? {
          AttemptsStop(rows, ids, sink, maxAttempts, attempted + 1);
          return None;
        }
        session := Updated(session, id, emission, maxAttempts);
        if emission.Delivered? { sent := sent + 1; } else { failed := failed + 1; }
        attempted := attempted + 1;
      }
      assert ids[..|ids|] == ids;
      rows, log := session, log + ids;
      r := Some(Summary(attempted, sent, failed, Backlog(rows, service, maxAttempts)));
    }
  }

  lemma {:induction false} AttemptsStop(rows: seq<Row>, ids: seq<string>, sink: Sink, maxAttempts: int, n: nat)
    requires n <= |ids| && Attempts(rows, ids[..n], sink, maxAttempts).None?
    ensures Attempts(rows, ids, sink, maxAttempts).None?
  {
    if n == |ids| {
      assert ids[..n] == ids;
    } else {
      assert ids[..|ids| - 1][..n] == ids[..n];
      AttemptsStop(rows, ids[..|ids| - 1], sink, maxAttempts, n);
    }
  }

  // ----- one dispatch -----

  ghost predicate DistinctRows(rows: seq<Row>) {
    forall i, j | 0 <= i < j < |rows| :: rows[i].id != rows[j].id
  }

  ghost predicate DistinctIds(ids: seq<string>) {
    forall i, j | 0 <= i < j < |ids| :: ids[i] != ids[j]
  }

  lemma BatchFacts(rows: seq<Row>, service: string, maxBatch: nat, maxAttempts: int)
    ensures var ids := Batch(rows, service, maxBatch, maxAttempts);
            && DistinctIds(ids) && forall id | id in ids :: id in DeliverableIds(rows, service, maxAttempts)
  {
    var ids := SortedOf(DeliverableIds(rows, service, maxAttempts));
    SortedOfFacts(DeliverableIds(rows, service, maxAttempts));
    forall i, j | 0 <= i < j < |ids| ensures ids[i] != ids[j] { LessAsymmetric(Itself(ids[i]), Itself(ids[j])); }
  }

  /** Rows are attempted in id order: a deliverable row left out has a greater id than every attempted one, and it is
      left out only by a full batch. */
  lemma BatchInIdOrder(rows: seq<Row>, service: string, maxBatch: nat, maxAttempts: int, r: Row, k: nat)
    requires r in rows && Deliverable(r, service, maxAttempts)
    requires r.id !in Batch(rows, service, maxBatch, maxAttempts) && k < |Batch(rows, service, maxBatch, maxAttempts)|
    ensures Less(Batch(rows, service, maxBatch, maxAttempts)[k], r.id)
    ensures |Batch(rows, service, maxBatch, maxAttempts)| == maxBatch
  {
    var ids := SortedOf(DeliverableIds(rows, service, maxAttempts));
    SortedOfFacts(DeliverableIds(rows, service, maxAttempts));
    assert r.id in DeliverableIds(rows, service, maxAttempts);
    var j :| 0 <= j < |ids| && ids[j] == r.id;
    if maxBatch < |ids| {
      InPrefix(ids, maxBatch, j);
      assert Less(Itself(ids[k]), Itself(ids[j]));
    }
  }

  lemma InPrefix(ids: seq<string>, n: nat, j: nat)
    requires j < |ids| && n <= |ids|
    ensures j < n ==> ids[j] in ids[..n]
  {
    if j < n { assert ids[..n][j] == ids[j]; }
  }

  /** The number of the call that attempts this id. */
  function CallOf(ids: seq<string>, id: string): (k: nat)
    requires id in ids
    ensures k < |ids| && ids[k] == id
  {
    if ids[|ids| - 1] == id then |ids| - 1 else CallOf(ids[..|ids| - 1], id)
  }

  /** A committed dispatch: each batch row was attempted once, every other row is untouched. */
  lemma {:induction false} DispatchedRow(rows: seq<Row>, ids: seq<string>, sink: Sink, maxAttempts: int, i: nat)
    requires DistinctIds(ids) && i < |rows| && Attempts(rows, ids, sink, maxAttempts).Some?
    ensures var after := Attempts(rows, ids, sink, maxAttempts).value;
            && |after| == |rows|
            && after[i] == if rows[i].id in ids then Attempted(rows[i], sink(CallOf(ids, rows[i].id)), maxAttempts)
                           else rows[i]
  {
    if ids != [] {
      var front, n := ids[..|ids| - 1], |ids| - 1;
      DispatchedRow(rows, front, sink, maxAttempts, i);
      FrontMultiset(ids);
      if rows[i].id in front {
        assert ids[CallOf(front, rows[i].id)] != ids[n];
      }
    }
  }

  lemma {:induction false} NotBroken(rows: seq<Row>, ids: seq<string>, sink: Sink, maxAttempts: int, k: nat)
    requires Attempts(rows, ids, sink, maxAttempts).Some? && k < |ids|
    ensures !sink(k).Broken?
  {
    if k < |ids| - 1 { NotBroken(rows, ids[..|ids| - 1], sink, maxAttempts, k); }
  }

  // ----- every run -----

  datatype Event = Enqueue(id: string, service: string) | Dispatch(service: string, maxBatch: nat, sink: Sink)

  /** The rows and the log of committed emit calls. */
  datatype State = State(rows: seq<Row>, log: seq<string>)

  function Step(s: State, event: Event, maxAttempts: int): State {
    match event
    case Enqueue(id, service) => State(s.rows + [Enqueued(id, service)], s.log)
    case Dispatch(service, maxBatch, sink) =>
      var ids := Batch(s.rows, service, maxBatch, maxAttempts);
      match Attempts(s.rows, ids, sink, maxAttempts)
      case None => s
      case Some(rows) => State(rows, s.log + ids)
  }

  function Run(events: seq<Event>, maxAttempts: int): State {
    if events == [] then State([], []) else Step(Run(events[..|events| - 1], maxAttempts), events[|events| - 1], maxAttempts)
  }

  /** Outbox ids are drawn fresh. */
  ghost predicate FreshIds(events: seq<Event>) {
    forall i, j | 0 <= i < j < |events| && events[i].Enqueue? && events[j].Enqueue? :: events[i].id != events[j].id
  }

  function Calls(log: seq<string>, id: string): nat {
    if log == [] then 0 else Calls(log[..|log| - 1], id) + if log[|log| - 1] == id then 1 else 0
  }

  lemma {:induction false} CallsConcat(log: seq<string>, ids: seq<string>, id: string)
    requires DistinctIds(ids)
    ensures Calls(log + ids, id) == Calls(log, id) + if id in ids then 1 else 0
  {
    if ids == [] {
      assert log + ids == log;
    } else {
      ConcatFront(log, ids);
      FrontMultiset(ids);
      CallsConcat(log, ids[..|ids| - 1], id);
    }
  }

  /** Attempts are counted exactly and bounded, and the status says how they ended. */
  ghost predicate Sound(r: Row, log: seq<string>, maxAttempts: int) {
    && r.attempts == Calls(log, r.id) && (maxAttempts > 0 ==> r.attempts <= maxAttempts)
    && (r.status == Pending ==> maxAttempts > 0 ==> r.attempts < maxAttempts)
    && (r.status == Sent ==> r.attempts > 0)
    && (r.status == Failed ==> maxAttempts > 0 && r.attempts == maxAttempts && r.lastError.Some?)
  }

  ghost predicate AllSound(s: State, maxAttempts: int) {
    DistinctRows(s.rows) && forall i | 0 <= i < |s.rows| :: Sound(s.rows[i], s.log, maxAttempts)
  }

  lemma DispatchKeepsSound(s: State, service: string, maxBatch: nat, sink: Sink, maxAttempts: int)
    requires AllSound(s, maxAttempts)
    ensures AllSound(Step(s, Dispatch(service, maxBatch, sink), maxAttempts), maxAttempts)
  {
    var ids := Batch(s.rows, service, maxBatch, maxAttempts);
    BatchFacts(s.rows, service, maxBatch, maxAttempts);
    if Attempts(s.rows, ids, sink, maxAttempts).Some? {
      var after := Step(s, Dispatch(service, maxBatch, sink), maxAttempts);
      forall i | 0 <= i < |s.rows|
        ensures |after.rows| == |s.rows| && after.rows[i].id == s.rows[i].id && Sound(after.rows[i], after.log, maxAttempts)
      {
        DispatchKeepsRowSound(s, service, maxBatch, sink, maxAttempts, i);
      }
      if s.rows == [] { NoRows(ids, sink, maxAttempts); }
    }
  }

  lemma {:induction false} NoRows(ids: seq<string>, sink: Sink, maxAttempts: int)
    requires Attempts([], ids, sink, maxAttempts).Some?
    ensures Attempts([], ids, sink, maxAttempts).value == []
  {
    if ids != [] { NoRows(ids[..|ids| - 1], sink, maxAttempts); }
  }

  lemma DeliverableIs(rows: seq<Row>, service: string, maxAttempts: int, i: nat)
    requires DistinctRows(rows) && i < |rows| && rows[i].id in DeliverableIds(rows, service, maxAttempts)
    ensures Deliverable(rows[i], service, maxAttempts)
  {
    var r :| r in rows && Deliverable(r, service, maxAttempts) && r.id == rows[i].id;
    var j :| 0 <= j < |rows| && rows[j] == r;
  }

  lemma DispatchKeepsRowSound(s: State, service: string, maxBatch: nat, sink: Sink, maxAttempts: int, i: nat)
    requires AllSound(s, maxAttempts) && i < |s.rows|
    requires Attempts(s.rows, Batch(s.rows, service, maxBatch, maxAttempts), sink, maxAttempts).Some?
    ensures var after := Step(s, Dispatch(service, maxBatch, sink), maxAttempts);
            |after.rows| == |s.rows| && after.rows[i].id == s.rows[i].id && Sound(after.rows[i], after.log, maxAttempts)
  {
    var ids, r := Batch(s.rows, service, maxBatch, maxAttempts), s.rows[i];
    BatchFacts(s.rows, service, maxBatch, maxAttempts);
    DispatchedRow(s.rows, ids, sink, maxAttempts, i);
    CallsConcat(s.log, ids, r.id);
    if r.id in ids {
      DeliverableIs(s.rows, service, maxAttempts, i);
      NotBroken(s.rows, ids, sink, maxAttempts, CallOf(ids, r.id));
    }
  }

  // ----- enqueueing -----

  /** Every logged call is for a row. */
  ghost predicate LogOfRows(s: State) {
    forall id | id in s.log :: exists i :: 0 <= i < |s.rows| && s.rows[i].id == id
  }

  lemma {:induction false} NotCalled(log: seq<string>, id: string)
    requires id !in log
    ensures Calls(log, id) == 0
  {
    if log != [] {
      assert log[|log| - 1] in log;
      NotCalled(log[..|log| - 1], id);
    }
  }

  lemma EnqueueKeepsSound(s: State, id: string, service: string, maxAttempts: int)
    requires AllSound(s, maxAttempts) && LogOfRows(s) && forall i | 0 <= i < |s.rows| :: s.rows[i].id != id
    ensures AllSound(Step(s, Enqueue(id, service), maxAttempts), maxAttempts)
    ensures LogOfRows(Step(s, Enqueue(id, service), maxAttempts))
  {
    var after := Step(s, Enqueue(id, service), maxAttempts);
    NotCalled(s.log, id);
    forall x | x in after.log ensures exists i :: 0 <= i < |after.rows| && after.rows[i].id == x {
      var i :| 0 <= i < |s.rows| && s.rows[i].id == x;
      assert after.rows[i].id == x;
    }
  }

  lemma DispatchKeepsLog(s: State, service: string, maxBatch: nat, sink: Sink, maxAttempts: int)
    requires LogOfRows(s)
    ensures LogOfRows(Step(s, Dispatch(service, maxBatch, sink), maxAttempts))
  {
    var ids := Batch(s.rows, service, maxBatch, maxAttempts);
    BatchFacts(s.rows, service, maxBatch, maxAttempts);
    var result := Attempts(s.rows, ids, sink, maxAttempts);
    if result.Some? {
      KeepsIds(s.rows, ids, sink, maxAttempts);
      forall x | x in s.log + ids ensures exists i :: 0 <= i < |result.value| && result.value[i].id == x {
        if x in ids {
          var r :| r in s.rows && r.id == x;
          var i :| 0 <= i < |s.rows| && s.rows[i] == r;
          assert result.value[i].id == x;
        } else {
          var i :| 0 <= i < |s.rows| && s.rows[i].id == x;
          assert result.value[i].id == x;
        }
      }
    }
  }

  lemma {:induction false} KeepsIds(rows: seq<Row>, ids: seq<string>, sink: Sink, maxAttempts: int)
    requires Attempts(rows, ids, sink, maxAttempts).Some?
    ensures var after := Attempts(rows, ids, sink, maxAttempts).value;
            |after| == |rows| && forall i | 0 <= i < |rows| :: after[i].id == rows[i].id && after[i].service == rows[i].service
  {
    if ids != [] { KeepsIds(rows, ids[..|ids| - 1], sink, maxAttempts); }
  }

  /** Every row of a run was enqueued by it. */
  ghost predicate RowsEnqueued(rows: seq<Row>, events: seq<Event>) {
    forall i | 0 <= i < |rows| :: exists k :: 0 <= k < |events| && events[k].Enqueue? && events[k].id == rows[i].id
  }

  lemma {:induction false} RunRowsEnqueued(events: seq<Event>, maxAttempts: int)
    ensures RowsEnqueued(Run(events, maxAttempts).rows, events)
  {
    if events != [] {
      var front, last, n := events[..|events| - 1], events[|events| - 1], |events| - 1;
      RunRowsEnqueued(front, maxAttempts);
      var before, rows := Run(front, maxAttempts).rows, Run(events, maxAttempts).rows;
      if last.Dispatch? {
        var ids := Batch(before, last.service, last.maxBatch, maxAttempts);
        if Attempts(before, ids, last.sink, maxAttempts).Some? { KeepsIds(before, ids, last.sink, maxAttempts); }
      }
      forall i | 0 <= i < |rows| ensures exists k :: 0 <= k < |events| && events[k].Enqueue? && events[k].id == rows[i].id {
        if i < |before| {
          var k :| 0 <= k < |front| && front[k].Enqueue? && front[k].id == before[i].id;
          assert events[k] == front[k];
        } else {
          assert events[n].id == rows[i].id;
        }
      }
    }
  }

  /** In every state a run reaches: each row's attempt count is the number of committed emit calls for it, at most
      max_attempts; a pending row has attempts left, a failed one has used them all, a sent one was delivered. */
  lemma {:induction false} RunSound(events: seq<Event>, maxAttempts: int)
    requires FreshIds(events)
    ensures AllSound(Run(events, maxAttempts), maxAttempts) && LogOfRows(Run(events, maxAttempts))
  {
    if events != [] {
      var front, last, n := events[..|events| - 1], events[|events| - 1], |events| - 1;
      var s := Run(front, maxAttempts);
      assert FreshIds(front) by {
        forall i, j | 0 <= i < j < |front| && front[i].Enqueue? && front[j].Enqueue? ensures front[i].id != front[j].id {
          assert events[i] == front[i] && events[j] == front[j];
        }
      }
      RunSound(front, maxAttempts);
      match last
      case Enqueue(id, service) =>
        RunRowsEnqueued(front, maxAttempts);
        forall i | 0 <= i < |s.rows| ensures s.rows[i].id != id {
          var k :| 0 <= k < |front| && front[k].Enqueue? && front[k].id == s.rows[i].id;
          assert events[k] == front[k] && events[n] == last;
        }
        EnqueueKeepsSound(s, id, service, maxAttempts);
      case Dispatch(service, maxBatch, sink) =>
        DispatchKeepsSound(s, service, maxBatch, sink, maxAttempts);
        DispatchKeepsLog(s, service, maxBatch, sink, maxAttempts);
    }
  }

  /** Sent and failed are final: no later event changes such a row. */
  lemma FinalRowsKept(s: State, event: Event, maxAttempts: int, i: nat)
    requires DistinctRows(s.rows) && i < |s.rows| && s.rows[i].status != Pending
    ensures i < |Step(s, event, maxAttempts).rows| && Step(s, event, maxAttempts).rows[i] == s.rows[i]
  {
    if event.Dispatch? {
      var ids := Batch(s.rows, event.service, event.maxBatch, maxAttempts);
      BatchFacts(s.rows, event.service, event.maxBatch, maxAttempts);
      if Attempts(s.rows, ids, event.sink, maxAttempts).Some? {
        DispatchedRow(s.rows, ids, event.sink, maxAttempts, i);
        if s.rows[i].id in ids { DeliverableIs(s.rows, event.service, maxAttempts, i); }
      }
    }
  }

  // ----- draining -----

  /** Attempts the service's deliverable rows still have. */
  function Debt(rows: seq<Row>, service: string, maxAttempts: int): nat {
    if rows == [] then 0
    else
      var last := rows[|rows| - 1];
      Debt(rows[..|rows| - 1], service, maxAttempts)
      + if Deliverable(last, service, maxAttempts) then maxAttempts - last.attempts else 0
  }

  lemma {:induction false} DebtBounded(rows: seq<Row>, service: string, maxAttempts: nat)
    requires forall i | 0 <= i < |rows| :: rows[i].attempts >= 0
    ensures Backlog(rows, service, maxAttempts) <= Debt(rows, service, maxAttempts)
    ensures Debt(rows, service, maxAttempts) <= Times(Backlog(rows, service, maxAttempts), maxAttempts)
  {
    if rows != [] { DebtBounded(rows[..|rows| - 1], service, maxAttempts); }
  }

  /** n * k, by addition. */
  function Times(n: nat, k: nat): nat {
    if n == 0 then 0 else Times(n - 1, k) + k
  }

  /** An attempt of a deliverable row pays at least one. */
  lemma {:induction false} AttemptPays(rows: seq<Row>, k: nat, e: Emission, service: string, maxAttempts: int)
    requires DistinctRows(rows) && k < |rows| && Deliverable(rows[k], service, maxAttempts) && !e.Broken?
    ensures Debt(Updated(rows, rows[k].id, e, maxAttempts), service, maxAttempts) + 1 <= Debt(rows, service, maxAttempts)
  {
    var front, id := rows[..|rows| - 1], rows[k].id;
    assert Updated(rows, id, e, maxAttempts)[..|rows| - 1] == Updated(front, id, e, maxAttempts);
    if k < |rows| - 1 {
      AttemptPays(front, k, e, service, maxAttempts);
    } else {
      assert Updated(front, id, e, maxAttempts) == front;
    }
  }

  /** A committed dispatch pays at least one attempt per batch row. */
  lemma {:induction false} DispatchPays(rows: seq<Row>, ids: seq<string>, sink: Sink, service: string, maxAttempts: int)
    requires DistinctRows(rows) && DistinctIds(ids) && Attempts(rows, ids, sink, maxAttempts).Some?
    requires forall id | id in ids :: id in DeliverableIds(rows, service, maxAttempts)
    ensures var after := Attempts(rows, ids, sink, maxAttempts).value;
            Debt(after, service, maxAttempts) + |ids| <= Debt(rows, service, maxAttempts)
  {
    if ids != [] {
      var front, n, id := ids[..|ids| - 1], |ids| - 1, ids[|ids| - 1];
      DispatchPays(rows, front, sink, service, maxAttempts);
      var before := Attempts(rows, front, sink, maxAttempts).value;
      KeepsIds(rows, front, sink, maxAttempts);
      assert id in ids;
      var r :| r in rows && Deliverable(r, service, maxAttempts) && r.id == id;
      var k :| 0 <= k < |rows| && rows[k] == r;
      DispatchedRow(rows, front, sink, maxAttempts, k);
      AttemptPays(before, k, sink(n), service, maxAttempts);
    }
  }

  /** A dispatch that commits. */
  ghost predicate Commits(s: State, event: Event, service: string, maxAttempts: int) {
    && event.Dispatch? && event.service == service && event.maxBatch > 0
    && Attempts(s.rows, Batch(s.rows, service, event.maxBatch, maxAttempts), event.sink, maxAttempts).Some?
  }

  lemma {:induction false} NoBacklog(rows: seq<Row>, service: string, maxAttempts: int)
    requires DeliverableIds(rows, service, maxAttempts) == {}
    ensures Backlog(rows, service, maxAttempts) == 0 && Debt(rows, service, maxAttempts) == 0
  {
    if rows != [] {
      var last := rows[|rows| - 1];
      assert Deliverable(last, service, maxAttempts) ==> last.id in DeliverableIds(rows, service, maxAttempts);
      assert DeliverableIds(rows[..|rows| - 1], service, maxAttempts) <= DeliverableIds(rows, service, maxAttempts);
      NoBacklog(rows[..|rows| - 1], service, maxAttempts);
    }
  }

  /** Each committed dispatch strictly lowers the debt until it is nil, even if the sink always refuses. */
  lemma DebtFalls(s: State, event: Event, service: string, maxAttempts: int)
    requires DistinctRows(s.rows) && Commits(s, event, service, maxAttempts)
    ensures var before, after := Debt(s.rows, service, maxAttempts), Debt(Step(s, event, maxAttempts).rows, service, maxAttempts);
            (before == 0 && after == 0) || after < before
    ensures DistinctRows(Step(s, event, maxAttempts).rows)
  {
    var ids := Batch(s.rows, service, event.maxBatch, maxAttempts);
    BatchFacts(s.rows, service, event.maxBatch, maxAttempts);
    DispatchPays(s.rows, ids, event.sink, service, maxAttempts);
    KeepsIds(s.rows, ids, event.sink, maxAttempts);
    if ids == [] {
      if DeliverableIds(s.rows, service, maxAttempts) != {} {
        SortedOfContents(DeliverableIds(s.rows, service, maxAttempts));
      } else {
        NoBacklog(s.rows, service, maxAttempts);
      }
    }
  }

  function Steps(s: State, events: seq<Event>, maxAttempts: int): State {
    if events == [] then s else Step(Steps(s, events[..|events| - 1], maxAttempts), events[|events| - 1], maxAttempts)
  }

  ghost predicate AllCommit(s: State, events: seq<Event>, service: string, maxAttempts: int) {
    forall i | 0 <= i < |events| :: Commits(Steps(s, events[..i], maxAttempts), events[i], service, maxAttempts)
  }

  lemma {:induction false} DebtPaidOff(s: State, events: seq<Event>, service: string, maxAttempts: int)
    requires DistinctRows(s.rows) && AllCommit(s, events, service, maxAttempts)
    ensures var after := Steps(s, events, maxAttempts).rows;
            DistinctRows(after) && (Debt(after, service, maxAttempts) == 0
                                    || Debt(after, service, maxAttempts) + |events| <= Debt(s.rows, service, maxAttempts))
  {
    if events != [] {
      var front, n := events[..|events| - 1], |events| - 1;
      assert AllCommit(s, front, service, maxAttempts) by {
        forall i | 0 <= i < n ensures Commits(Steps(s, front[..i], maxAttempts), front[i], service, maxAttempts) {
          assert front[..i] == events[..i] && front[i] == events[i];
        }
      }
      DebtPaidOff(s, front, service, maxAttempts);
      assert Commits(Steps(s, events[..n], maxAttempts), events[n], service, maxAttempts);
      DebtFalls(Steps(s, front, maxAttempts), events[n], service, maxAttempts);
    }
  }

  /** n deliverable rows are drained by n * max_attempts committed dispatches, whatever the sink does. */
  lemma OutboxDrains(s: State, events: seq<Event>, service: string, maxAttempts: nat)
    requires AllSound(s, maxAttempts) && AllCommit(s, events, service, maxAttempts)
    requires |events| >= Times(Backlog(s.rows, service, maxAttempts), maxAttempts)
    ensures Backlog(Steps(s, events, maxAttempts).rows, service, maxAttempts) == 0
  {
    DebtBounded(s.rows, service, maxAttempts);
    DebtPaidOff(s, events, service, maxAttempts);
    DebtNil(Steps(s, events, maxAttempts).rows, service, maxAttempts);
  }

  lemma {:induction false} DebtNil(rows: seq<Row>, service: string, maxAttempts: int)
    requires Debt(rows, service, maxAttempts) == 0
    ensures Backlog(rows, service, maxAttempts) == 0
  {
    if rows != [] { DebtNil(rows[..|rows| - 1], service, maxAttempts); }
  }
}
