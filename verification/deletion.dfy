/** backend/control_plane/deletion.py and retention.py: deletion approvals, executions and purges under legal hold. */
module Deletion {
  import opened Sequences
  import opened Text

  datatype Status = Requested | Approved | Rejected | Deferred | Blocked | Executed

  datatype Request = Request(id: string, workspaceId: string, requester: string, status: Status, holdSeen: bool,
                             reason: Option<string>)

  /** A decision record. */
  datatype Approval = Approval(requestId: string, workspaceId: string, approver: string, decision: string, reason: string)

  datatype Policy = Policy(id: string, workspaceId: string, retentionDays: int, enabled: bool, purgeEnabled: bool,
                           legalHold: bool, createdBy: string)

  datatype Purge = Purge(id: string, workspaceId: string, policyId: string, dryRun: bool)

  /** executions is the log of committed executions, by request id. */
  datatype State = State(requests: seq<Request>, approvals: seq<Approval>, policies: seq<Policy>, purges: seq<Purge>,
                         executions: seq<string>)

  const EMPTY := State([], [], [], [], [])

  /** The row with this primary key. */
  function Find(requests: seq<Request>, id: string): (r: Option<nat>)
    ensures r.Some? ==> r.value < |requests| && requests[r.value].id == id
  {
    if requests == [] then None
    else if requests[|requests| - 1].id == id then Some(|requests| - 1)
    else Find(requests[..|requests| - 1], id)
  }

  /** The row of this workspace. */
  function Found(s: State, workspaceId: string, id: string): (r: Option<nat>)
    ensures r.Some? ==> r.value < |s.requests| && s.requests[r.value].id == id && s.requests[r.value].workspaceId == workspaceId
  {
    var k := Find(s.requests, id);
    if k.Some? && s.requests[k.value].workspaceId == workspaceId then k else None
  }

  /** The workspace's policy row of greatest id. */
  function Latest(policies: seq<Policy>, workspaceId: string): (r: Option<nat>)
    ensures r.Some? ==> r.value < |policies| && policies[r.value].workspaceId == workspaceId
  {
    if policies == [] then None
    else
      var front, last := Latest(policies[..|policies| - 1], workspaceId), policies[|policies| - 1];
      if last.workspaceId != workspaceId || (front.Some? && Less(last.id, policies[front.value].id)) then front
      else Some(|policies| - 1)
  }

  /** _legal_hold_active */
  predicate HoldActive(s: State, workspaceId: string) {
    var k := Latest(s.policies, workspaceId);
    k.Some? && s.policies[k.value].legalHold
  }

  // ----- requests to the service -----

  datatype Call =
    | Configure(policy: Policy)
    | Submit(id: string, workspaceId: string, requester: string)
    | Decide(workspaceId: string, id: string, approver: string, decision: string, reason: string)
    | Execute(workspaceId: string, id: string, fault: bool)
    | RunPurge(workspaceId: string, id: string, purgeRoot: Option<string>, dryRun: bool, fault: bool)

  function Normalized(decision: string): string {
    var d := Lower(Strip(decision));
    if d == "approve" || d == "reject" || d == "defer" then d else "defer"
  }

  /** configure_retention_policy in an existing workspace */
  function Configured(s: State, p: Policy): Result<State> {
    if p.enabled && p.retentionDays <= 0 then Err("invalid_retention_days")
    else
      var k := Latest(s.policies, p.workspaceId);
      Ok(s.(policies := if k.Some? then s.policies[k.value := p.(id := s.policies[k.value].id)] else s.policies + [p]))
  }

  /** submit_deletion_request */
  function Submitted(s: State, id: string, workspaceId: string, requester: string): State {
    s.(requests := s.requests + [Request(id, workspaceId, requester, Requested, HoldActive(s, workspaceId), None)])
  }

  /** approve_deletion_request */
  function Decided(s: State, c: Call): Result<State>
    requires c.Decide?
  {
    var k, decision := Found(s, c.workspaceId, c.id), Normalized(c.decision);
    if k.None? then Err("deletion_request_not_found")
    else
      var row := s.requests[k.value];
      if decision == "approve" && row.requester == c.approver then Err("requester_cannot_self_approve")
      else
        var after :=
          if decision == "approve" && HoldActive(s, c.workspaceId) then
            row.(status := Blocked, holdSeen := true, reason := Some("legal_hold_active"))
          else row.(status := if decision == "approve" then Approved else if decision == "reject" then Rejected else Deferred,
                    reason := Some(c.reason));
        Ok(s.(requests := s.requests[k.value := after],
              approvals := s.approvals + [Approval(c.id, c.workspaceId, c.approver, decision, c.reason)]))
  }

  datatype Workflow = Done | Refused(reason: string)

  /** execute_deletion_workflow */
  function WorkflowResult(legalHoldActive: bool, approved: bool): Workflow {
    if legalHoldActive then Refused("legal_hold_active") else if !approved then Refused("missing_approval") else Done
  }

  /** execute_deletion_request; a fault is any exception of the workflow or of the evidence store. */
  function ExecutedState(s: State, c: Call): Result<State>
    requires c.Execute?
  {
    var k := Found(s, c.workspaceId, c.id);
    if k.None? then Err("deletion_request_not_found")
    else
      var row, hold := s.requests[k.value], HoldActive(s, c.workspaceId);
      if hold then
        Ok(s.(requests := s.requests[k.value := row.(status := Blocked, holdSeen := true, reason := Some("legal_hold_active"))]))
      else if row.status != Approved then Err("deletion_not_approved")
      else if c.fault then Err("execution_failed")
      else Ok(s.(requests := s.requests[k.value := row.(status := Executed, holdSeen := false)],
                 executions := s.executions + [c.id]))
  }

  /** execute_retention_purge */
  function Purged(s: State, c: Call): Result<State>
    requires c.RunPurge?
  {
    var k := Latest(s.policies, c.workspaceId);
    if k.None? || !s.policies[k.value].enabled then Err("retention_disabled")
    else if !s.policies[k.value].purgeEnabled then Err("purge_not_enabled")
    else if s.policies[k.value].legalHold then Err("legal_hold_active")
    else if c.purgeRoot.None? || Strip(c.purgeRoot.value) == "" then Err("missing_purge_path_config")
    else if c.fault then Err("purge_failed")
    else Ok(s.(purges := s.purges + [Purge(c.id, c.workspaceId, s.policies[k.value].id, c.dryRun)]))
  }

  function Handled(s: State, c: Call): Result<State> {
    match c
    case Configure(p) => Configured(s, p)
    case Submit(id, workspaceId, requester) => Ok(Submitted(s, id, workspaceId, requester))
    case Decide(_, _, _, _, _) => Decided(s, c)
    case Execute(_, _, _) => ExecutedState(s, c)
    case RunPurge(_, _, _, _, _) => Purged(s, c)
  }

  /** The state after a call; a raised error leaves it as it was. */
  function Step(s: State, c: Call): State {
    match Handled(s, c)
    case Err(_) => s
    case Ok(after) => after
  }

  class Governance {
    var requests: seq<Request>
    var approvals: seq<Approval>
    var policies: seq<Policy>
    var purges: seq<Purge>
    ghost var executions: seq<string>

    ghost function Now(): State
      reads this
    {
      State(requests, approvals, policies, purges, executions)
    }

    constructor ()
      ensures Now() == EMPTY
    {
      requests, approvals, policies, purges, executions := [], [], [], [], [];
    }

    method LegalHoldActive(workspaceId: string) returns (active: bool)
      ensures active == HoldActive(Now(), workspaceId)
    {
      var k := Latest(policies, workspaceId);
      if k.None? { return false; }
      active := policies[k.value].legalHold;
    }

    method ConfigureRetentionPolicy(p: Policy) returns (error: Option<string>)
      modifies this
      ensures Now() == Step(old(Now()), Configure(p)) && (error.None? <==> Handled(old(Now()), Configure(p)).Ok?)
    {
      if p.enabled && p.retentionDays <= 0 { return Some("invalid_retention_days"); }
      var k := Latest(policies, p.workspaceId);
      if k.None? {
        policies := policies + [p];
      } else {
        policies := policies[k.value := p.(id := policies[k.value].id)];
      }
      error := None;
    }

    method SubmitDeletionRequest(id: string, workspaceId: string, requester: string)
      modifies this
      ensures Now() == Step(old(Now()), Submit(id, workspaceId, requester))
    {
      var hold := LegalHoldActive(workspaceId);
      requests := requests + [Request(id, workspaceId, requester, Requested, hold, None)];
    }

    method ApproveDeletionRequest(c: Call) returns (error: Option<string>)
      requires c.Decide?
      modifies this
      ensures Now() == Step(old(Now()), c) && (error.None? <==> Handled(old(Now()), c).Ok?)
    {
      var k := Find(requests, c.id);
      if k.None? || requests[k.value].workspaceId != c.workspaceId { return Some("deletion_request_not_found"); }
      var row, decision := requests[k.value], Normalized(c.decision);
      if decision == "approve" && row.requester == c.approver { return Some("requester_cannot_self_approve"); }
      var hold := LegalHoldActive(c.workspaceId);
      if decision == "approve" && hold {
        row := row.(holdSeen := true, status := Blocked, reason := Some("legal_hold_active"));
      } else if decision == "approve" {
        row := row.(status := Approved, reason := Some(c.reason));
      } else if decision == "reject" {
        row := row.(status := Rejected, reason := Some(c.reason));
      } else {
        row := row.(status := Deferred, reason := Some(c.reason));
      }
      requests := requests[k.value := row];
      approvals := approvals + [Approval(c.id, c.workspaceId, c.approver, decision, c.reason)];
      error := None;
    }

    method ExecuteDeletionRequest(c: Call) returns (error: Option<string>)
      requires c.Execute?
      modifies this
      ensures Now() == Step(old(Now()), c) && (error.None? <==> Handled(old(Now()), c).Ok?)
    {
      var k := Find(requests, c.id);
      if k.None? || requests[k.value].workspaceId != c.workspaceId { return Some("deletion_request_not_found"); }
      var row := requests[k.value];
      var hold := LegalHoldActive(c.workspaceId);
      if hold {
        requests := requests[k.value := row.(holdSeen := true, status := Blocked, reason := Some("legal_hold_active"))];
        return None;
      }
      if row.status != Approved { return Some("deletion_not_approved"); }
      if c.fault { return Some("execution_failed"); }
      // with the hold off and the approval given the workflow always executes
      assert WorkflowResult(hold, row.status == Approved) == Done;
      requests := requests[k.value := row.(status := Executed, holdSeen := false)];
      executions := executions + [c.id];
      error := None;
    }

    method ExecuteRetentionPurge(c: Call) returns (error: Option<string>)
      requires c.RunPurge?
      modifies this
      ensures Now() == Step(old(Now()), c) && (error.None? <==> Handled(old(Now()), c).Ok?)
    {
      var k := Latest(policies, c.workspaceId);
      if k.None? || !policies[k.value].enabled { return Some("retention_disabled"); }
      var policy := policies[k.value];
      if !policy.purgeEnabled { return Some("purge_not_enabled"); }
      if policy.legalHold { return Some("legal_hold_active"); }
      if c.purgeRoot.None? || Strip(c.purgeRoot.value) == "" { return Some("missing_purge_path_config"); }
      if c.fault { return Some("purge_failed"); }
      purges := purges + [Purge(c.id, c.workspaceId, policy.id, c.dryRun)];
      error := None;
    }
  }

  // ----- legal hold -----

  /** The execution log of one workspace's requests is what matters to it; a call executes at most its own request. */
  lemma ExecutesIff(s: State, c: Call)
    ensures var k := if c.Execute? then Found(s, c.workspaceId, c.id) else None;
            Step(s, c).executions
            == if k.Some? && !HoldActive(s, c.workspaceId) && s.requests[k.value].status == Approved && !c.fault
               then s.executions + [c.id] else s.executions
  {
  }

  /** While the hold of a workspace is on, no call executes a deletion or a purge there, whatever was approved. */
  lemma HoldFreezes(s: State, c: Call, workspaceId: string)
    requires HoldActive(s, workspaceId) && (c.Execute? || c.RunPurge?) && c.workspaceId == workspaceId
    ensures Step(s, c).executions == s.executions && Step(s, c).purges == s.purges
  {
  }

  /** A purge run is recorded only for an enabled policy with purging on and no hold. */
  lemma PurgeNeedsPolicy(s: State, c: Call)
    ensures Step(s, c).purges != s.purges ==>
              c.RunPurge? && !HoldActive(s, c.workspaceId) && Latest(s.policies, c.workspaceId).Some?
              && s.policies[Latest(s.policies, c.workspaceId).value].enabled
              && s.policies[Latest(s.policies, c.workspaceId).value].purgeEnabled
  {
  }

  // ----- separation of duties -----

  /** The latest decision record of a request. */
  function LatestDecision(approvals: seq<Approval>, id: string): Option<Approval> {
    if approvals == [] then None
    else if approvals[|approvals| - 1].requestId == id then Some(approvals[|approvals| - 1])
    else LatestDecision(approvals[..|approvals| - 1], id)
  }

  function Approvals(approvals: seq<Approval>, id: string): nat {
    if approvals == [] then 0
    else
      Approvals(approvals[..|approvals| - 1], id)
      + if approvals[|approvals| - 1].requestId == id && approvals[|approvals| - 1].decision == "approve" then 1 else 0
  }

  function Executions(log: seq<string>, id: string): nat {
    if log == [] then 0 else Executions(log[..|log| - 1], id) + if log[|log| - 1] == id then 1 else 0
  }

  /** An approved request was last decided by an approval of someone other than its requester; executions do not
      outnumber approvals, and an approved request still has one unspent. */
  ghost predicate Accounted(r: Request, approvals: seq<Approval>, executions: seq<string>) {
    && (r.status == Approved ==>
          var a := LatestDecision(approvals, r.id);
          a.Some? && a.value.decision == "approve" && a.value.approver != r.requester)
    && Executions(executions, r.id) + (if r.status == Approved then 1 else 0) <= Approvals(approvals, r.id)
  }

  ghost predicate Distinct(requests: seq<Request>) {
    forall i, j | 0 <= i < j < |requests| :: requests[i].id != requests[j].id
  }

  ghost predicate AllAccounted(s: State) {
    Distinct(s.requests) && forall i | 0 <= i < |s.requests| :: Accounted(s.requests[i], s.approvals, s.executions)
  }

  lemma DecisionAppended(approvals: seq<Approval>, a: Approval, id: string)
    ensures LatestDecision(approvals + [a], id) == if a.requestId == id then Some(a) else LatestDecision(approvals, id)
    ensures Approvals(approvals + [a], id)
         == Approvals(approvals, id) + if a.requestId == id && a.decision == "approve" then 1 else 0
  {
    assert (approvals + [a])[..|approvals|] == approvals;
  }

  lemma ExecutionAppended(log: seq<string>, done: string, id: string)
    ensures Executions(log + [done], id) == Executions(log, id) + if done == id then 1 else 0
  {
    assert (log + [done])[..|log|] == log;
  }

  lemma DecideKeepsAccounts(s: State, c: Call)
    requires AllAccounted(s) && c.Decide?
    ensures AllAccounted(Step(s, c))
  {
    var k, after := Found(s, c.workspaceId, c.id), Step(s, c);
    if Decided(s, c).Ok? {
      forall i | 0 <= i < |s.requests| ensures Accounted(after.requests[i], after.approvals, after.executions) {
        DecisionAppended(s.approvals, after.approvals[|s.approvals|], s.requests[i].id);
        assert i != k.value ==> s.requests[i].id != c.id;
      }
    }
  }

  lemma ExecuteKeepsAccounts(s: State, c: Call)
    requires AllAccounted(s) && c.Execute?
    ensures AllAccounted(Step(s, c))
  {
    var k, after := Found(s, c.workspaceId, c.id), Step(s, c);
    if ExecutedState(s, c).Ok? {
      forall i | 0 <= i < |s.requests| ensures Accounted(after.requests[i], after.approvals, after.executions) {
        ExecutionAppended(s.executions, c.id, s.requests[i].id);
        assert i != k.value ==> s.requests[i].id != c.id;
      }
    }
  }

  // ----- every run -----

  function After(log: seq<Call>): State {
    if log == [] then EMPTY else Step(After(log[..|log| - 1]), log[|log| - 1])
  }

  /** Request ids are drawn fresh. */
  ghost predicate FreshIds(log: seq<Call>) {
    forall i, j | 0 <= i < j < |log| && log[i].Submit? && log[j].Submit? :: log[i].id != log[j].id
  }

  ghost predicate Submitters(s: State, log: seq<Call>) {
    forall i | 0 <= i < |s.requests| :: exists k :: 0 <= k < |log| && log[k].Submit? && log[k].id == s.requests[i].id
  }

  lemma SameIds(s: State, c: Call, i: nat)
    requires i < |s.requests|
    ensures i < |Step(s, c).requests| && Step(s, c).requests[i].id == s.requests[i].id
            && Step(s, c).requests[i].requester == s.requests[i].requester
    ensures !c.Submit? ==> |Step(s, c).requests| == |s.requests|
  {
  }

  lemma {:induction false} RequestsSubmitted(log: seq<Call>)
    ensures Submitters(After(log), log)
  {
    if log != [] {
      var front, last, n := log[..|log| - 1], log[|log| - 1], |log| - 1;
      var s, after := After(front), After(log);
      RequestsSubmitted(front);
      forall i | 0 <= i < |after.requests| ensures exists k :: 0 <= k < |log| && log[k].Submit? && log[k].id == after.requests[i].id {
        if i < |s.requests| {
          SameIds(s, last, i);
          var k :| 0 <= k < |front| && front[k].Submit? && front[k].id == s.requests[i].id;
          assert log[k].id == after.requests[i].id;
        } else {
          if !last.Submit? && s.requests != [] { SameIds(s, last, 0); }
          assert log[n].id == after.requests[i].id;
        }
      }
    }
  }

  /** A request never submitted has no executions; decisions are recorded only for existing requests. */
  ghost predicate OnlyKnown(s: State) {
    && (forall id | id in s.executions :: exists i :: 0 <= i < |s.requests| && s.requests[i].id == id)
  }

  lemma {:induction false} NoExecutions(log: seq<string>, id: string)
    requires id !in log
    ensures Executions(log, id) == 0
  {
    if log != [] {
      assert log[|log| - 1] in log;
      NoExecutions(log[..|log| - 1], id);
    }
  }

  lemma StepKeepsKnown(s: State, c: Call)
    requires OnlyKnown(s)
    ensures OnlyKnown(Step(s, c))
  {
    var after := Step(s, c);
    forall id | id in after.executions ensures exists i :: 0 <= i < |after.requests| && after.requests[i].id == id {
      if id in s.executions {
        var i :| 0 <= i < |s.requests| && s.requests[i].id == id;
        SameIds(s, c, i);
        assert after.requests[i].id == id;
      } else {
        var k := Found(s, c.workspaceId, c.id);
        SameIds(s, c, k.value);
        assert after.requests[k.value].id == id;
      }
    }
  }

  lemma SubmitKeepsAccounts(s: State, id: string, workspaceId: string, requester: string)
    requires AllAccounted(s) && OnlyKnown(s) && forall i | 0 <= i < |s.requests| :: s.requests[i].id != id
    ensures AllAccounted(Step(s, Submit(id, workspaceId, requester)))
  {
    NoExecutions(s.executions, id);
  }

  /** In every reachable state: an approved request's latest decision is an approval by someone other than its
      requester, and no request was executed more often than it was approved. */
  lemma {:induction false} DutiesSeparated(log: seq<Call>)
    requires FreshIds(log)
    ensures AllAccounted(After(log)) && OnlyKnown(After(log))
  {
    if log != [] {
      var front, last, n := log[..|log| - 1], log[|log| - 1], |log| - 1;
      var s := After(front);
      assert FreshIds(front) by {
        forall i, j | 0 <= i < j < |front| && front[i].Submit? && front[j].Submit? ensures front[i].id != front[j].id {
          assert log[i] == front[i] && log[j] == front[j];
        }
      }
      DutiesSeparated(front);
      StepKeepsKnown(s, last);
      match last
      case Configure(p) =>
      case Submit(id, workspaceId, requester) =>
        RequestsSubmitted(front);
        forall i | 0 <= i < |s.requests| ensures s.requests[i].id != id {
          var k :| 0 <= k < |front| && front[k].Submit? && front[k].id == s.requests[i].id;
          assert log[k] == front[k] && log[n] == last;
        }
        SubmitKeepsAccounts(s, id, workspaceId, requester);
      case Decide(_, _, _, _, _) => DecideKeepsAccounts(s, last);
      case Execute(_, _, _) => ExecuteKeepsAccounts(s, last);
      case RunPurge(_, _, _, _, _) =>
    }
  }

  /** Every execution of a run happened with the hold off, on a request that someone other than its requester had just
      approved. */
  lemma EveryExecutionApproved(log: seq<Call>, k: nat)
    requires FreshIds(log) && k < |log| && After(log[..k + 1]).executions != After(log[..k]).executions
    ensures var s, c := After(log[..k]), log[k];
            && c.Execute? && !HoldActive(s, c.workspaceId) && Found(s, c.workspaceId, c.id).Some?
            && var a := LatestDecision(s.approvals, c.id);
               a.Some? && a.value.decision == "approve"
               && a.value.approver != s.requests[Found(s, c.workspaceId, c.id).value].requester
  {
    assert log[..k + 1][..k] == log[..k];
    ExecutesIff(After(log[..k]), log[k]);
    assert FreshIds(log[..k]);
    DutiesSeparated(log[..k]);
  }

  // ----- what the workflow does is not undone -----

  /** The call gets as far as the deletion workflow; what that erases stays erased when an exception follows. */
  ghost predicate Attempts(s: State, c: Call) {
    c.Execute? && Found(s, c.workspaceId, c.id).Some? && !HoldActive(s, c.workspaceId)
    && s.requests[Found(s, c.workspaceId, c.id).value].status == Approved
  }

  /** How often the workflow was started for a request, and how often an exception followed. */
  ghost function Started(log: seq<Call>, id: string): nat {
    if log == [] then 0
    else
      var front, last := log[..|log| - 1], log[|log| - 1];
      Started(front, id) + if Attempts(After(front), last) && last.id == id then 1 else 0
  }

  ghost function Broken(log: seq<Call>, id: string): nat {
    if log == [] then 0
    else
      var front, last := log[..|log| - 1], log[|log| - 1];
      Broken(front, id) + if Attempts(After(front), last) && last.id == id && last.fault then 1 else 0
  }

  /** Every start of the workflow, whether it is recorded or not, is under no hold, on a request that someone other
      than its requester had just approved. */
  lemma EveryAttemptApproved(log: seq<Call>, c: Call)
    requires FreshIds(log) && Attempts(After(log), c)
    ensures var s := After(log);
            && !HoldActive(s, c.workspaceId)
            && var a := LatestDecision(s.approvals, c.id);
               a.Some? && a.value.decision == "approve"
               && a.value.approver != s.requests[Found(s, c.workspaceId, c.id).value].requester
  {
    DutiesSeparated(log);
  }

  /** Recorded executions are the starts that no exception followed: those that one followed leave the request approved
      and can be repeated. */
  lemma {:induction false} StartedIsRecordedOrBroken(log: seq<Call>, id: string)
    ensures Started(log, id) == Executions(After(log).executions, id) + Broken(log, id)
  {
    if log != [] {
      var front, last := log[..|log| - 1], log[|log| - 1];
      StartedIsRecordedOrBroken(front, id);
      ExecutesIff(After(front), last);
      if Attempts(After(front), last) { ExecutionAppended(After(front).executions, last.id, id); }
    }
  }

  /** So starts never outnumber approvals by more than the exceptions that followed. */
  lemma StartsAccounted(log: seq<Call>, i: nat)
    requires FreshIds(log) && i < |After(log).requests|
    ensures var s := After(log);
            var id := s.requests[i].id; Started(log, id) <= Approvals(s.approvals, id) + Broken(log, id)
  {
    DutiesSeparated(log);
    StartedIsRecordedOrBroken(log, After(log).requests[i].id);
    assert Accounted(After(log).requests[i], After(log).approvals, After(log).executions);
  }
}
