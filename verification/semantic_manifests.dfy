/** backend/control_plane/semantic_manifest_service.py: requesting, deciding and rolling back semantic manifests. */
module SemanticManifests {
  import opened Sequences
  import opened Text
  import opened Semantic
  import opened GovernanceTable

  const EFFECTIVE := "semantic_manifest"
  const CHANGE_REQUEST := "semantic_manifest_change_request"

  /** The published manifest of a workspace. */
  datatype State = State(manifest: Manifest, checksum: string, version: int, previous: Option<Manifest>,
                         previousChecksum: Option<string>)

  datatype Body =
    | Effective(state: State)
    | ChangeRequest(manifest: Manifest, requester: string, status: string, approvedBy: string, reason: string)

  type Rows = seq<Row<Body>>

  /** semantic_manifest_checksum */
  type Digest = Manifest -> string

  function Current(rows: Rows, workspaceId: string): Option<State> {
    var body := ActiveBody(rows, workspaceId, EFFECTIVE);
    if body.Some? && body.value.Effective? then Some(body.value.state) else None
  }

  /** The state after one more step; stored manifests are validated again before they are used. */
  function Next(s: Option<State>, m: Manifest, digest: Digest): State {
    match s
    case None => State(m, digest(m), 1, None, None)
    case Some(state) => State(m, digest(m), state.version + 1, Some(state.manifest), Some(state.checksum))
  }

  function Revalidated(m: Manifest, workspaceId: string): Result<Manifest> {
    Validated(ManifestJson(m), Some(workspaceId))
  }

  datatype Request =
    | Ask(workspaceId: string, requester: string, manifest: map<string, Json>, newId: string)
    | Decide(workspaceId: string, changeRequestId: string, approver: string, decision: string, reason: string, newId: string)
    | Rollback(workspaceId: string)

  function Normalized(decision: string): string {
    var d := Lower(Strip(decision));
    if d == "approve" || d == "reject" || d == "defer" then d else "defer"
  }

  function Found(rows: Rows, workspaceId: string, id: string): (r: Option<nat>)
    ensures r.Some? ==> r.value < |rows| && rows[r.value].id == id && rows[r.value].workspaceId == workspaceId
                        && rows[r.value].policyType == CHANGE_REQUEST && rows[r.value].body.ChangeRequest?
  {
    var k := ById(rows, id);
    if k.None? || rows[k.value].workspaceId != workspaceId || rows[k.value].policyType != CHANGE_REQUEST
       || !rows[k.value].body.ChangeRequest? then None
    else k
  }

  function Decided(r: Row<Body>, status: string, approver: string, reason: string): Row<Body>
    requires r.body.ChangeRequest?
  {
    r.(status := status, body := r.body.(status := status, approvedBy := approver, reason := reason))
  }

  /** The manifest of the request is already the effective one. */
  predicate AlreadyActive(rows: Rows, workspaceId: string, m: Manifest, digest: Digest) {
    var current := Current(rows, workspaceId);
    current.Some? && (if Strip(current.value.checksum) != "" then Strip(current.value.checksum)
                      else digest(current.value.manifest)) == digest(m)
  }

  function Asked(rows: Rows, r: Request, digest: Digest): Result<Rows>
    requires r.Ask?
  {
    match Validated(r.manifest, Some(r.workspaceId))
    case Err(e) => Err(e)
    case Ok(m) =>
      if AlreadyActive(rows, r.workspaceId, m, digest) then Err("semantic_manifest_already_active")
      else Ok(rows + [Row(r.newId, r.workspaceId, CHANGE_REQUEST, "staged", ChangeRequest(m, r.requester, "staged", "", ""))])
  }

  function DecidedRows(rows: Rows, r: Request, digest: Digest): Result<Rows>
    requires r.Decide?
  {
    var k, decision := Found(rows, r.workspaceId, r.changeRequestId), Normalized(r.decision);
    if k.None? then Err("change_request_not_found")
    else if decision != "approve" then
      Ok(rows[k.value := Decided(rows[k.value], if decision == "reject" then "rejected" else "deferred", r.approver, r.reason)])
    else match Revalidated(rows[k.value].body.manifest, r.workspaceId)
      case Err(e) => Err(e)
      case Ok(m) =>
        var next := Effective(Next(Current(rows, r.workspaceId), m, digest));
        var after := Upserted(rows, r.workspaceId, EFFECTIVE, r.newId, next);
        Ok(after[k.value := Decided(rows[k.value], "applied", r.approver, r.reason)])
  }

  function RolledBack(rows: Rows, workspaceId: string, digest: Digest): Result<Rows> {
    match Current(rows, workspaceId)
    case None => Err("semantic_manifest_not_configured")
    case Some(state) =>
      if state.previous.None? then Err("semantic_manifest_rollback_unavailable")
      else match Revalidated(state.previous.value, workspaceId)
        case Err(e) => Err(e)
        case Ok(m) => Ok(Upserted(rows, workspaceId, EFFECTIVE, "", Effective(Next(Some(state), m, digest))))
  }

  function Handled(rows: Rows, r: Request, digest: Digest): Result<Rows> {
    match r
    case Ask(_, _, _, _) => Asked(rows, r, digest)
    case Decide(_, _, _, _, _, _) => DecidedRows(rows, r, digest)
    case Rollback(workspaceId) => RolledBack(rows, workspaceId, digest)
  }

  /** The table after a request; a raised error leaves it as it was. */
  function Step(rows: Rows, r: Request, digest: Digest): Rows {
    match Handled(rows, r, digest)
    case Err(_) => rows
    case Ok(after) => after
  }

  class Service {
    const digest: Digest
    var rows: Rows

    constructor (digest: Digest)
      ensures this.digest == digest && rows == []
    {
      this.digest, rows := digest, [];
    }

    method RequestChange(r: Request) returns (error: Option<string>)
      requires r.Ask?
      modifies this
      ensures rows == Step(old(rows), r, digest) && (error.None? <==> Handled(old(rows), r, digest).Ok?)
    {
      var m := ValidateSemanticManifest(r.manifest, Some(r.workspaceId));
      if m.Err? { return Some(m.error); }
      if AlreadyActive(rows, r.workspaceId, m.value, digest) { return Some("semantic_manifest_already_active"); }
      rows := rows + [Row(r.newId, r.workspaceId, CHANGE_REQUEST, "staged",
                          ChangeRequest(m.value, r.requester, "staged", "", ""))];
      error := None;
    }

    method DecideChange(r: Request) returns (error: Option<string>)
      requires r.Decide?
      modifies this
      ensures rows == Step(old(rows), r, digest) && (error.None? <==> Handled(old(rows), r, digest).Ok?)
    {
      var k := Found(rows, r.workspaceId, r.changeRequestId);
      if k.None? { return Some("change_request_not_found"); }
      var row, decision := rows[k.value], Normalized(r.decision);
      if decision != "approve" {
        var status := if decision == "reject" then "rejected" else "deferred";
        rows := rows[k.value := Decided(row, status, r.approver, r.reason)];
        return None;
      }
      var m := ValidateSemanticManifest(ManifestJson(row.body.manifest), Some(r.workspaceId));
      if m.Err? { return Some(m.error); }
      var next := Next(Current(rows, r.workspaceId), m.value, digest);
      rows := Upserted(rows, r.workspaceId, EFFECTIVE, r.newId, Effective(next));
      rows := rows[k.value := Decided(row, "applied", r.approver, r.reason)];
      error := None;
    }

    method RollbackManifest(workspaceId: string) returns (error: Option<string>)
      modifies this
      ensures rows == Step(old(rows), Rollback(workspaceId), digest)
      ensures error.None? <==> Handled(old(rows), Rollback(workspaceId), digest).Ok?
    {
      var active := Current(rows, workspaceId);
      if active.None? { return Some("semantic_manifest_not_configured"); }
      if active.value.previous.None? { return Some("semantic_manifest_rollback_unavailable"); }
      var m := ValidateSemanticManifest(ManifestJson(active.value.previous.value), Some(workspaceId));
      if m.Err? { return Some(m.error); }
      rows := Upserted(rows, workspaceId, EFFECTIVE, "", Effective(Next(active, m.value, digest)));
      error := None;
    }
  }

  // ----- one request -----

  /** What a request makes effective in its workspace, None when it does not change the effective manifest. */
  function Advance(rows: Rows, r: Request): Option<Manifest> {
    match r
    case Ask(_, _, _, _) => None
    case Decide(_, _, _, _, _, _) =>
      var k := Found(rows, r.workspaceId, r.changeRequestId);
      if k.None? || Normalized(r.decision) != "approve" then None
      else
        var m := Revalidated(rows[k.value].body.manifest, r.workspaceId);
        if m.Ok? then Some(m.value) else None
    case Rollback(_) =>
      var current := Current(rows, r.workspaceId);
      if current.None? || current.value.previous.None? then None
      else
        var m := Revalidated(current.value.previous.value, r.workspaceId);
        if m.Ok? then Some(m.value) else None
  }

  /** The effective row of a workspace after a request: the next state of it, or what it was. */
  ghost predicate Moves(before: Rows, after: Rows, w: string, m: Option<Manifest>, digest: Digest) {
    && Current(after, w) == (if m.Some? then Some(Next(Current(before, w), m.value, digest)) else Current(before, w))
    && (OneActive(before, w, EFFECTIVE) ==> OneActive(after, w, EFFECTIVE))
  }

  lemma AdvancedOnly(rows: Rows, workspaceId: string, newId: string, m: Manifest, digest: Digest, w: string)
    ensures var after := Upserted(rows, workspaceId, EFFECTIVE, newId, Effective(Next(Current(rows, workspaceId), m, digest)));
            Moves(rows, after, w, if w == workspaceId then Some(m) else None, digest)
  {
    var body := Effective(Next(Current(rows, workspaceId), m, digest));
    var after := Upserted(rows, workspaceId, EFFECTIVE, newId, body);
    if w == workspaceId {
      UpsertedIsActive(rows, workspaceId, EFFECTIVE, newId, body);
    } else {
      OtherUpsert(rows, workspaceId, EFFECTIVE, newId, body, w, EFFECTIVE);
      SameActiveBody(rows, after, w, EFFECTIVE);
    }
  }

  /** Marking the request applied after writing the effective row does not touch the effective row. */
  lemma AppliedMoves(rows: Rows, workspaceId: string, newId: string, m: Manifest, digest: Digest, k: nat,
                     applied: Row<Body>, w: string)
    requires k < |rows| && rows[k].policyType == CHANGE_REQUEST && applied.policyType == CHANGE_REQUEST
    ensures var written := Upserted(rows, workspaceId, EFFECTIVE, newId,
                                    Effective(Next(Current(rows, workspaceId), m, digest)));
            Moves(rows, written[k := applied], w, if w == workspaceId then Some(m) else None, digest)
  {
    var written := Upserted(rows, workspaceId, EFFECTIVE, newId, Effective(Next(Current(rows, workspaceId), m, digest)));
    AdvancedOnly(rows, workspaceId, newId, m, digest, w);
    OtherRowChanged(written, k, applied, w, EFFECTIVE);
    SameActiveBody(written, written[k := applied], w, EFFECTIVE);
  }

  lemma DecideMoves(rows: Rows, r: Request, digest: Digest, w: string)
    requires r.Decide?
    ensures Moves(rows, Step(rows, r, digest), w, if w == r.workspaceId then Advance(rows, r) else None, digest)
  {
    var k, after := Found(rows, r.workspaceId, r.changeRequestId), Step(rows, r, digest);
    if k.Some? && DecidedRows(rows, r, digest).Ok? {
      if Advance(rows, r).None? {
        OtherRowChanged(rows, k.value, after[k.value], w, EFFECTIVE);
        SameActiveBody(rows, after, w, EFFECTIVE);
      } else {
        AppliedMoves(rows, r.workspaceId, r.newId, Advance(rows, r).value, digest, k.value, after[k.value], w);
      }
    }
  }

  /** Every request advances the effective manifest of its own workspace by one state or leaves it; others are untouched. */
  lemma StepMoves(rows: Rows, r: Request, digest: Digest, w: string)
    ensures Moves(rows, Step(rows, r, digest), w, if w == r.workspaceId then Advance(rows, r) else None, digest)
  {
    match r
    case Ask(_, _, _, _) => SameActiveBody(rows, Step(rows, r, digest), w, EFFECTIVE);
    case Decide(_, _, _, _, _, _) => DecideMoves(rows, r, digest, w);
    case Rollback(workspaceId) =>
      if Advance(rows, r).Some? { AdvancedOnly(rows, workspaceId, "", Advance(rows, r).value, digest, w); }
  }

  // ----- every run -----

  function After(log: seq<Request>, digest: Digest): Rows {
    if log == [] then [] else Step(After(log[..|log| - 1], digest), log[|log| - 1], digest)
  }

  function Extended(h: seq<Manifest>, m: Option<Manifest>): seq<Manifest> {
    if m.Some? then h + [m.value] else h
  }

  /** The manifests that were effective in the workspace, in order. */
  function History(log: seq<Request>, digest: Digest, w: string): seq<Manifest> {
    if log == [] then []
    else
      var front, last := log[..|log| - 1], log[|log| - 1];
      Extended(History(front, digest, w), if w == last.workspaceId then Advance(After(front, digest), last) else None)
  }

  /** The effective row tells the history: its length, its last entry and the one before. */
  ghost predicate Tells(rows: Rows, w: string, h: seq<Manifest>, digest: Digest) {
    && OneActive(rows, w, EFFECTIVE) && (Current(rows, w).None? <==> h == [])
    && (h != [] ==>
          var s := Current(rows, w).value;
          && s.version == |h| && s.manifest == h[|h| - 1] && s.checksum == digest(s.manifest)
          && s.previous == if |h| >= 2 then Some(h[|h| - 2]) else None)
  }

  lemma MovesTell(before: Rows, after: Rows, w: string, m: Option<Manifest>, h: seq<Manifest>, digest: Digest)
    requires Tells(before, w, h, digest) && Moves(before, after, w, m, digest)
    ensures Tells(after, w, Extended(h, m), digest)
  {
  }

  /** In every reachable state: at most one effective row; its version is the number of applies and rollbacks; the
      previous manifest it holds is the one effective just before. */
  lemma {:induction false} VersionCountsSteps(log: seq<Request>, digest: Digest, w: string)
    ensures Tells(After(log, digest), w, History(log, digest, w), digest)
  {
    if log != [] {
      var front, last := log[..|log| - 1], log[|log| - 1];
      var rows := After(front, digest);
      var m := if w == last.workspaceId then Advance(rows, last) else None;
      VersionCountsSteps(front, digest, w);
      StepMoves(rows, last, digest, w);
      MovesTell(rows, After(log, digest), w, m, History(front, digest, w), digest);
    }
  }

  /** A manifest validated for this workspace. */
  ghost predicate Publishable(m: Manifest, w: string) {
    NormalForm(m) && m.workspaceId == w
  }

  /** Every stored manifest is one that validation returned for the row's workspace. */
  ghost predicate RowsPublishable(rows: Rows) {
    forall i | 0 <= i < |rows| && rows[i].body.ChangeRequest? :: Publishable(rows[i].body.manifest, rows[i].workspaceId)
  }

  lemma PublishableRevalidates(m: Manifest, w: string)
    requires Publishable(m, w)
    ensures Revalidated(m, w) == Ok(m)
  {
    NormalIsValidated(m, Some(w));
  }

  lemma EffectiveKeepsPublishable(rows: Rows, workspaceId: string, newId: string, state: State)
    requires RowsPublishable(rows)
    ensures RowsPublishable(Upserted(rows, workspaceId, EFFECTIVE, newId, Effective(state)))
  {
  }

  lemma DecisionKeepsPublishable(rows: Rows, k: nat, status: string, approver: string, reason: string, r: Row<Body>)
    requires RowsPublishable(rows) && k < |rows| && r.body.ChangeRequest? && Publishable(r.body.manifest, r.workspaceId)
    ensures RowsPublishable(rows[k := Decided(r, status, approver, reason)])
  {
  }

  lemma AskKeepsPublishable(rows: Rows, r: Request, digest: Digest)
    requires RowsPublishable(rows) && r.Ask?
    ensures RowsPublishable(Step(rows, r, digest))
  {
    if Validated(r.manifest, Some(r.workspaceId)).Ok? {
      assert Publishable(Validated(r.manifest, Some(r.workspaceId)).value, r.workspaceId) by {
        ValidatedIsNormal(r.manifest, Some(r.workspaceId));
      }
    }
  }

  lemma StepKeepsPublishable(rows: Rows, r: Request, digest: Digest)
    requires RowsPublishable(rows)
    ensures RowsPublishable(Step(rows, r, digest))
  {
    match r
    case Ask(_, _, _, _) => AskKeepsPublishable(rows, r, digest);
    case Decide(_, _, _, _, _, _) =>
      var k := Found(rows, r.workspaceId, r.changeRequestId);
      if k.Some? && DecidedRows(rows, r, digest).Ok? {
        var row, decision := rows[k.value], Normalized(r.decision);
        if decision != "approve" {
          DecisionKeepsPublishable(rows, k.value, if decision == "reject" then "rejected" else "deferred", r.approver,
                                   r.reason, row);
        } else {
          var state := Next(Current(rows, r.workspaceId), Revalidated(row.body.manifest, r.workspaceId).value, digest);
          EffectiveKeepsPublishable(rows, r.workspaceId, r.newId, state);
          DecisionKeepsPublishable(Upserted(rows, r.workspaceId, EFFECTIVE, r.newId, Effective(state)), k.value, "applied",
                                   r.approver, r.reason, row);
        }
      }
    case Rollback(w) =>
      if RolledBack(rows, w, digest).Ok? {
        var m := Revalidated(Current(rows, w).value.previous.value, w).value;
        EffectiveKeepsPublishable(rows, w, "", Next(Current(rows, w), m, digest));
      }
  }

  lemma {:induction false} ReachablePublishable(log: seq<Request>, digest: Digest)
    ensures RowsPublishable(After(log, digest))
  {
    if log != [] {
      ReachablePublishable(log[..|log| - 1], digest);
      StepKeepsPublishable(After(log[..|log| - 1], digest), log[|log| - 1], digest);
    }
  }

  lemma AdvancePublishable(rows: Rows, r: Request)
    ensures Advance(rows, r).Some? ==> Publishable(Advance(rows, r).value, r.workspaceId)
  {
    match r
    case Ask(_, _, _, _) =>
    case Decide(_, _, _, _, _, _) =>
      var k := Found(rows, r.workspaceId, r.changeRequestId);
      if k.Some? && Revalidated(rows[k.value].body.manifest, r.workspaceId).Ok? {
        ValidatedIsNormal(ManifestJson(rows[k.value].body.manifest), Some(r.workspaceId));
      }
    case Rollback(_) =>
      var current := Current(rows, r.workspaceId);
      if current.Some? && current.value.previous.Some? && Revalidated(current.value.previous.value, r.workspaceId).Ok? {
        ValidatedIsNormal(ManifestJson(current.value.previous.value), Some(r.workspaceId));
      }
  }

  ghost predicate AllPublishable(h: seq<Manifest>, w: string) {
    h == [] || (AllPublishable(h[..|h| - 1], w) && Publishable(h[|h| - 1], w))
  }

  lemma {:induction false} PublishableAt(h: seq<Manifest>, w: string, i: nat)
    requires AllPublishable(h, w) && i < |h|
    ensures Publishable(h[i], w)
  {
    if i < |h| - 1 { PublishableAt(h[..|h| - 1], w, i); }
  }

  /** Only manifests in normal form, naming their own workspace, are ever effective. */
  lemma {:induction false} HistoryPublishable(log: seq<Request>, digest: Digest, w: string)
    ensures AllPublishable(History(log, digest, w), w)
  {
    if log != [] {
      var front, last := log[..|log| - 1], log[|log| - 1];
      var h := History(front, digest, w);
      HistoryPublishable(front, digest, w);
      AdvancePublishable(After(front, digest), last);
      if Advance(After(front, digest), last).Some? {
        assert (h + [Advance(After(front, digest), last).value])[..|h|] == h;
      }
    }
  }

  /** An approval of a pending or decided change request never fails validation: what was staged is in normal form, and
      validating a normal form gives it back. */
  lemma ApprovalApplies(log: seq<Request>, digest: Digest, r: Request, k: nat)
    requires r.Decide? && Normalized(r.decision) == "approve"
    requires Found(After(log, digest), r.workspaceId, r.changeRequestId) == Some(k)
    ensures Handled(After(log, digest), r, digest).Ok?
    ensures Advance(After(log, digest), r) == Some(After(log, digest)[k].body.manifest)
  {
    ReachablePublishable(log, digest);
    PublishableRevalidates(After(log, digest)[k].body.manifest, r.workspaceId);
  }

  lemma RollbackGoesBack(rows: Rows, w: string, h: seq<Manifest>, digest: Digest)
    requires Tells(rows, w, h, digest) && AllPublishable(h, w)
    ensures Advance(rows, Rollback(w)) == if |h| >= 2 then Some(h[|h| - 2]) else None
    ensures Handled(rows, Rollback(w), digest).Ok? <==> |h| >= 2
  {
    if |h| >= 2 {
      PublishableAt(h, w, |h| - 2);
      PublishableRevalidates(h[|h| - 2], w);
    }
  }

  /** Over every run, which leaves these rows and made these manifests effective in turn, a rollback is possible exactly
      when there are at least two of them, and it makes the one before last effective again. */
  lemma RollbackPossibleIff(log: seq<Request>, digest: Digest, w: string, rows: Rows, h: seq<Manifest>)
    requires rows == After(log, digest) && h == History(log, digest, w)
    ensures Handled(rows, Rollback(w), digest).Ok? <==> |h| >= 2
    ensures Advance(rows, Rollback(w)) == if |h| >= 2 then Some(h[|h| - 2]) else None
  {
    VersionCountsSteps(log, digest, w);
    HistoryPublishable(log, digest, w);
    RollbackGoesBack(rows, w, h, digest);
  }

  ghost predicate RollsBackTo(rows: Rows, w: string, digest: Digest, after: Rows) {
    after == Step(rows, Rollback(w), digest)
  }

  lemma RolledBackTells(rows: Rows, after: Rows, w: string, h: seq<Manifest>, digest: Digest)
    requires Tells(rows, w, h, digest) && |h| >= 2 && AllPublishable(h, w) && RollsBackTo(rows, w, digest, after)
    ensures Tells(after, w, h + [h[|h| - 2]], digest)
  {
    RollbackGoesBack(rows, w, h, digest);
    StepMoves(rows, Rollback(w), digest, w);
    MovesTell(rows, after, w, Some(h[|h| - 2]), h, digest);
  }

  lemma StillPublishable(h: seq<Manifest>, w: string)
    requires |h| >= 2 && AllPublishable(h, w)
    ensures AllPublishable(h + [h[|h| - 2]], w)
  {
    PublishableAt(h, w, |h| - 2);
    assert (h + [h[|h| - 2]])[..|h|] == h;
  }

  lemma TellSame(rows: Rows, later: Rows, w: string, h: seq<Manifest>, h': seq<Manifest>, digest: Digest)
    requires |h| >= 2 && h' == h + [h[|h| - 2]]
    requires Tells(rows, w, h, digest) && Tells(later, w, h' + [h'[|h'| - 2]], digest)
    ensures var s, t := Current(rows, w), Current(later, w);
            s.Some? && t.Some? && t.value.manifest == s.value.manifest && t.value.checksum == s.value.checksum
            && t.value.version == s.value.version + 2
  {
  }

  /** Two rollbacks in a row, in any state that has been through two manifests, restore the same manifest two versions
      later: validation gives back the stored manifest each time. */
  lemma TwoRollbacksRestore(rows: Rows, once: Rows, twice: Rows, w: string, h: seq<Manifest>, digest: Digest)
    requires Tells(rows, w, h, digest) && |h| >= 2 && AllPublishable(h, w)
    requires RollsBackTo(rows, w, digest, once) && RollsBackTo(once, w, digest, twice)
    ensures var s, t := Current(rows, w), Current(twice, w);
            s.Some? && t.Some? && t.value.manifest == s.value.manifest && t.value.checksum == s.value.checksum
            && t.value.version == s.value.version + 2
  {
    var h' := h + [h[|h| - 2]];
    RolledBackTells(rows, once, w, h, digest);
    StillPublishable(h, w);
    RolledBackTells(once, twice, w, h', digest);
    TellSame(rows, twice, w, h, h', digest);
  }
}
