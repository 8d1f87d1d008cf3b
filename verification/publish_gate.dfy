/** Review tasks (backend/control_plane/review_repository.py), the publish gate (gating.py) and the publish endpoint
    (app.py) over the gold pointer. */
module PublishGate {
  import opened Sequences
  import opened Text
  import opened GoldPointer

  datatype TaskStatus = Open | InReview | Approved | Rejected | Deferred

  datatype Task = Task(id: string, workspaceId: string, subjectRef: string, priority: string, blocking: bool, status: TaskStatus)

  datatype Approval = Approval(taskId: string, actorId: string, decision: string, reason: string)

  predicate Unresolved(t: Task, workspaceId: string) {
    t.workspaceId == workspaceId && t.blocking && (t.status == Open || t.status == InReview)
  }

  /** unresolved_blocking_task_count */
  function UnresolvedCount(tasks: seq<Task>, workspaceId: string): nat {
    if tasks == [] then 0
    else UnresolvedCount(tasks[..|tasks| - 1], workspaceId) + if Unresolved(tasks[|tasks| - 1], workspaceId) then 1 else 0
  }

  function Decided(decision: string): TaskStatus {
    if decision == "approve" then Approved else if decision == "reject" then Rejected else Deferred
  }

  /** The row with this primary key. */
  function Index(tasks: seq<Task>, id: string): (r: Option<nat>)
    ensures r.Some? ==> r.value < |tasks| && tasks[r.value].id == id
  {
    if tasks == [] then None
    else if tasks[|tasks| - 1].id == id then Some(|tasks| - 1)
    else Index(tasks[..|tasks| - 1], id)
  }

  datatype Gate = ContractFailure | BlockingReviewTasks | AllGatesPassed

  /** evaluate_gold_publish_gate */
  function Evaluated(contractsPassed: bool, unresolved: nat): Gate {
    if !contractsPassed then ContractFailure else if unresolved > 0 then BlockingReviewTasks else AllGatesPassed
  }

  /** An open quality-critical blocking task for this proposal. */
  predicate IsFailureTask(t: Task, workspaceId: string, proposalId: string) {
    Unresolved(t, workspaceId) && t.subjectRef == proposalId && t.priority == "quality_critical"
  }

  function HasFailureTask(tasks: seq<Task>, workspaceId: string, proposalId: string): (r: bool)
    ensures r ==> UnresolvedCount(tasks, workspaceId) > 0
  {
    tasks != [] && (IsFailureTask(tasks[|tasks| - 1], workspaceId, proposalId)
                    || HasFailureTask(tasks[..|tasks| - 1], workspaceId, proposalId))
  }

  // ----- the control plane's state and requests -----

  datatype Plane = Plane(tasks: seq<Task>, approvals: seq<Approval>, pointers: map<string, Files>)

  datatype Request =
    | CreateTask(taskId: string, workspaceId: string, subjectRef: string, priority: string, blocking: bool)
    | DecideTask(workspaceId: string, taskId: string, actorId: string, decision: string, reason: string)
    | PublishBuild(pointer: Pointer, report: Option<bool>, proposalId: string, taskId: string)
    | RollbackBuild(workspaceId: string, buildId: string)

  function FilesOf(s: Plane, workspaceId: string): Files {
    if workspaceId in s.pointers then s.pointers[workspaceId] else Files(None, [])
  }

  /** The gate as the endpoint evaluates it: a missing contract report counts as failed. */
  function GateOf(s: Plane, workspaceId: string, report: Option<bool>): Gate {
    Evaluated(report == Some(true), UnresolvedCount(s.tasks, workspaceId))
  }

  function Handled(s: Plane, r: Request): Plane {
    match r
    case CreateTask(taskId, workspaceId, subjectRef, priority, blocking) =>
      s.(tasks := s.tasks + [Task(taskId, workspaceId, subjectRef, priority, blocking, Open)])
    case DecideTask(workspaceId, taskId, actorId, decision, reason) =>
      var k := Index(s.tasks, taskId);
      if k.None? || s.tasks[k.value].workspaceId != workspaceId then s
      else s.(tasks := s.tasks[k.value := s.tasks[k.value].(status := Decided(decision))],
              approvals := s.approvals + [Approval(taskId, actorId, decision, reason)])
    case PublishBuild(p, report, proposalId, taskId) =>
      var w := p.workspaceId;
      if GateOf(s, w, report) == AllGatesPassed then s.(pointers := s.pointers[w := Published(FilesOf(s, w), p)])
      else if GateOf(s, w, report) == ContractFailure && !HasFailureTask(s.tasks, w, proposalId) then
        s.(tasks := s.tasks + [Task(taskId, w, proposalId, "quality_critical", true, Open)])
      else s
    case RollbackBuild(workspaceId, buildId) =>
      var target := Target(FilesOf(s, workspaceId).history, buildId);
      if target.Ok? then s.(pointers := s.pointers[workspaceId := RolledBack(FilesOf(s, workspaceId), target.value)]) else s
  }

  class ControlPlane {
    var tasks: seq<Task>
    var approvals: seq<Approval>
    var pointers: map<string, Files>

    function State(): Plane
      reads this
    {
      Plane(tasks, approvals, pointers)
    }

    constructor ()
      ensures State() == Plane([], [], map[])
    {
      tasks, approvals, pointers := [], [], map[];
    }

    method CreateReviewTask(taskId: string, workspaceId: string, subjectRef: string, priority: string, blocking: bool)
      modifies this
      ensures State() == Handled(old(State()), CreateTask(taskId, workspaceId, subjectRef, priority, blocking))
    {
      tasks := tasks + [Task(taskId, workspaceId, subjectRef, priority, blocking, Open)];
    }

    method DecideReviewTask(workspaceId: string, taskId: string, actorId: string, decision: string, reason: string)
      returns (found: bool)
      modifies this
      ensures State() == Handled(old(State()), DecideTask(workspaceId, taskId, actorId, decision, reason))
      ensures !found ==> State() == old(State())
    {
      var k := Index(tasks, taskId);
      if k.None? || tasks[k.value].workspaceId != workspaceId { return false; }
      var status := if decision == "approve" then Approved else if decision == "reject" then Rejected else Deferred;
      tasks := tasks[k.value := tasks[k.value].(status := status)];
      approvals := approvals + [Approval(taskId, actorId, decision, reason)];
      found := true;
    }

    method ApiPublishBuild(p: Pointer, report: Option<bool>, proposalId: string, taskId: string) returns (gate: Gate)
      modifies this
      ensures State() == Handled(old(State()), PublishBuild(p, report, proposalId, taskId))
      ensures gate == GateOf(old(State()), p.workspaceId, report)
    {
      var contractsPassed := report.Some? && report.value;
      gate := Evaluated(contractsPassed, UnresolvedCount(tasks, p.workspaceId));
      if gate == AllGatesPassed {
        var store := new PointerStore();
        store.latest, store.history := FilesOf(State(), p.workspaceId).latest, FilesOf(State(), p.workspaceId).history;
        store.Publish(p);
        pointers := pointers[p.workspaceId := store.State()];
      }
      if gate == ContractFailure && !HasFailureTask(tasks, p.workspaceId, proposalId) {
        CreateReviewTask(taskId, p.workspaceId, proposalId, "quality_critical", true);
      }
    }

    /** get_review_queue_summary: total and blocking counts of one pass over the workspace's tasks. */
    method ReviewQueueSummary(workspaceId: string) returns (total: nat, byStatus: map<TaskStatus, nat>, blockingOpen: nat)
      ensures blockingOpen == UnresolvedCount(tasks, workspaceId) && total == CountIn(tasks, workspaceId)
      ensures forall s :: Tally(byStatus, s) == CountWith(tasks, workspaceId, s)
    {
      total, byStatus, blockingOpen := 0, map[], 0;
      for i := 0 to |tasks|
        invariant blockingOpen == UnresolvedCount(tasks[..i], workspaceId) && total == CountIn(tasks[..i], workspaceId)
        invariant forall s :: Tally(byStatus, s) == CountWith(tasks[..i], workspaceId, s)
      {
        var row := tasks[i];
        assert tasks[..i + 1][..i] == tasks[..i];
        if row.workspaceId == workspaceId {
          total := total + 1;
          byStatus := byStatus[row.status := Tally(byStatus, row.status) + 1];
          if row.blocking && (row.status == Open || row.status == InReview) { blockingOpen := blockingOpen + 1; }
        }
      }
      assert tasks[..|tasks|] == tasks;
    }
  }

  function Tally(counts: map<TaskStatus, nat>, s: TaskStatus): nat {
    if s in counts then counts[s] else 0
  }

  function CountIn(tasks: seq<Task>, workspaceId: string): nat {
    if tasks == [] then 0
    else CountIn(tasks[..|tasks| - 1], workspaceId) + if tasks[|tasks| - 1].workspaceId == workspaceId then 1 else 0
  }

  function CountWith(tasks: seq<Task>, workspaceId: string, s: TaskStatus): nat {
    if tasks == [] then 0
    else
      CountWith(tasks[..|tasks| - 1], workspaceId, s)
      + if tasks[|tasks| - 1].workspaceId == workspaceId && tasks[|tasks| - 1].status == s then 1 else 0
  }

  /** The summary's status counts add up to its total, and bound its blocking count. */
  lemma {:induction false} StatusesAddUp(tasks: seq<Task>, workspaceId: string)
    ensures CountIn(tasks, workspaceId)
         == CountWith(tasks, workspaceId, Open) + CountWith(tasks, workspaceId, InReview)
            + CountWith(tasks, workspaceId, Approved) + CountWith(tasks, workspaceId, Rejected)
            + CountWith(tasks, workspaceId, Deferred)
    ensures UnresolvedCount(tasks, workspaceId)
         <= CountWith(tasks, workspaceId, Open) + CountWith(tasks, workspaceId, InReview)
  {
    if tasks != [] { StatusesAddUp(tasks[..|tasks| - 1], workspaceId); }
  }

  // ----- every run -----

  function After(log: seq<Request>): Plane {
    if log == [] then Plane([], [], map[]) else Handled(After(log[..|log| - 1]), log[|log| - 1])
  }

  /** A publish request moves the pointer exactly when the contracts passed and no blocking task is open. */
  lemma PublishOnlyThroughGate(s: Plane, p: Pointer, report: Option<bool>, proposalId: string, taskId: string)
    ensures var after := Handled(s, PublishBuild(p, report, proposalId, taskId));
            if report == Some(true) && UnresolvedCount(s.tasks, p.workspaceId) == 0
            then FilesOf(after, p.workspaceId) == Published(FilesOf(s, p.workspaceId), p)
                 && FilesOf(after, p.workspaceId).latest == Some(p) && after.tasks == s.tasks
            else after.pointers == s.pointers
  {
  }

  /** The pointer of a workspace changes only by its own publishes and rollbacks. */
  lemma OtherPointersKept(s: Plane, r: Request, workspaceId: string)
    requires r.PublishBuild? ==> r.pointer.workspaceId != workspaceId
    requires r.RollbackBuild? ==> r.workspaceId != workspaceId
    ensures FilesOf(Handled(s, r), workspaceId) == FilesOf(s, workspaceId)
  {
  }

  lemma PublishKeepsConsistent(f: Files, p: Pointer)
    requires Consistent(f)
    ensures Consistent(Published(f, p))
  {
  }

  lemma HandledKeepsConsistent(s: Plane, r: Request, workspaceId: string)
    requires Consistent(FilesOf(s, workspaceId))
    ensures Consistent(FilesOf(Handled(s, r), workspaceId))
  {
    if r.PublishBuild? && r.pointer.workspaceId == workspaceId {
      PublishKeepsConsistent(FilesOf(s, workspaceId), r.pointer);
    } else if r.RollbackBuild? && r.workspaceId == workspaceId {
      RollbackKeepsConsistent(FilesOf(s, workspaceId), r.buildId);
    } else {
      OtherPointersKept(s, r, workspaceId);
    }
  }

  /** In every reachable state every workspace's pointer files are consistent. */
  lemma {:induction false} PointersConsistent(log: seq<Request>, workspaceId: string)
    ensures Consistent(FilesOf(After(log), workspaceId))
  {
    if log != [] {
      PointersConsistent(log[..|log| - 1], workspaceId);
      HandledKeepsConsistent(After(log[..|log| - 1]), log[|log| - 1], workspaceId);
    }
  }

  lemma AddedTask(tasks: seq<Task>, t: Task, workspaceId: string)
    ensures UnresolvedCount(tasks + [t], workspaceId)
         == UnresolvedCount(tasks, workspaceId) + if Unresolved(t, workspaceId) then 1 else 0
  {
    assert (tasks + [t])[..|tasks|] == tasks;
  }

  /** Only a decision can lower the number of open blocking tasks. */
  lemma OnlyDecisionsUnblock(s: Plane, r: Request, workspaceId: string)
    requires !(r.DecideTask? && r.workspaceId == workspaceId)
    ensures UnresolvedCount(Handled(s, r).tasks, workspaceId) >= UnresolvedCount(s.tasks, workspaceId)
  {
    match r
    case CreateTask(taskId, w, subjectRef, priority, blocking) =>
      AddedTask(s.tasks, Task(taskId, w, subjectRef, priority, blocking, Open), workspaceId);
    case DecideTask(w, taskId, actorId, decision, reason) =>
      var k := Index(s.tasks, taskId);
      if k.Some? && s.tasks[k.value].workspaceId == w { OtherTaskDecided(s.tasks, k.value, Decided(decision), workspaceId); }
    case PublishBuild(p, _, proposalId, taskId) =>
      AddedTask(s.tasks, Task(taskId, p.workspaceId, proposalId, "quality_critical", true, Open), workspaceId);
    case RollbackBuild(_, _) =>
  }

  lemma {:induction false} OtherTaskDecided(tasks: seq<Task>, k: nat, status: TaskStatus, workspaceId: string)
    requires k < |tasks| && tasks[k].workspaceId != workspaceId
    ensures UnresolvedCount(tasks[k := tasks[k].(status := status)], workspaceId) == UnresolvedCount(tasks, workspaceId)
  {
    var after, n := tasks[k := tasks[k].(status := status)], |tasks| - 1;
    if k < n {
      assert after[..n] == tasks[..n][k := tasks[k].(status := status)];
      OtherTaskDecided(tasks[..n], k, status, workspaceId);
    } else {
      assert after[..n] == tasks[..n];
    }
  }

  /** A publish refused for its contracts leaves an open blocking task behind. */
  lemma RefusalBlocks(s: Plane, p: Pointer, report: Option<bool>, proposalId: string, taskId: string)
    requires report != Some(true)
    ensures UnresolvedCount(Handled(s, PublishBuild(p, report, proposalId, taskId)).tasks, p.workspaceId) > 0
  {
    AddedTask(s.tasks, Task(taskId, p.workspaceId, proposalId, "quality_critical", true, Open), p.workspaceId);
  }

  lemma AfterNext(log: seq<Request>, j: nat)
    requires 0 < j <= |log|
    ensures After(log[..j]) == Handled(After(log[..j - 1]), log[j - 1])
  {
    assert log[..j][..j - 1] == log[..j - 1];
  }

  ghost predicate Blocked(s: Plane, workspaceId: string) {
    UnresolvedCount(s.tasks, workspaceId) > 0
  }

  lemma StillBlocked(log: seq<Request>, j: nat, workspaceId: string)
    requires 0 < j <= |log| && Blocked(After(log[..j - 1]), workspaceId)
    requires log[j - 1].DecideTask? ==> log[j - 1].workspaceId != workspaceId
    ensures Blocked(After(log[..j]), workspaceId)
  {
    AfterNext(log, j);
    OnlyDecisionsUnblock(After(log[..j - 1]), log[j - 1], workspaceId);
  }

  lemma NowBlocked(log: seq<Request>, j: nat)
    requires 0 < j <= |log| && log[j - 1].PublishBuild? && log[j - 1].report != Some(true)
    ensures Blocked(After(log[..j]), log[j - 1].pointer.workspaceId)
  {
    var r := log[j - 1];
    AfterNext(log, j);
    RefusalBlocks(After(log[..j - 1]), r.pointer, r.report, r.proposalId, r.taskId);
  }

  lemma {:induction false} StaysBlocked(log: seq<Request>, i: nat, j: nat, workspaceId: string)
    requires i < j <= |log| && log[i].PublishBuild? && log[i].report != Some(true) && log[i].pointer.workspaceId == workspaceId
    requires forall k | i < k < j && log[k].DecideTask? :: log[k].workspaceId != workspaceId
    ensures Blocked(After(log[..j]), workspaceId)
  {
    if i == j - 1 {
      NowBlocked(log, j);
    } else {
      StaysBlocked(log, i, j - 1, workspaceId);
      StillBlocked(log, j, workspaceId);
    }
  }

  /** Over any run: between a publish refused for its contracts and the next publish of that workspace that goes
      through, even of another build with passing contracts, someone decided one of the workspace's review tasks. */
  lemma DecisionBetween(log: seq<Request>, i: nat, j: nat) returns (k: nat)
    requires i < j < |log| && log[i].PublishBuild? && log[i].report != Some(true)
    requires log[j].PublishBuild? && log[j].pointer.workspaceId == log[i].pointer.workspaceId
    requires GateOf(After(log[..j]), log[j].pointer.workspaceId, log[j].report) == AllGatesPassed
    ensures i < k < j && log[k].DecideTask? && log[k].workspaceId == log[i].pointer.workspaceId
  {
    if forall d | i < d < j && log[d].DecideTask? :: log[d].workspaceId != log[i].pointer.workspaceId {
      StaysBlocked(log, i, j, log[i].pointer.workspaceId);
    }
    k :| i < k < j && log[k].DecideTask? && log[k].workspaceId == log[i].pointer.workspaceId;
  }

  /** Decided tasks stay decided: no request opens one again. */
  lemma DecidedStaysDecided(s: Plane, r: Request, i: nat)
    requires i < |s.tasks| && s.tasks[i].status != Open && s.tasks[i].status != InReview
    ensures i < |Handled(s, r).tasks| && Handled(s, r).tasks[i].status != Open && Handled(s, r).tasks[i].status != InReview
    ensures Handled(s, r).tasks[i].id == s.tasks[i].id
  {
  }
}
