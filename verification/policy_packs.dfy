/** backend/control_plane/policy_pack_service.py: requesting, deciding, promoting and rolling back policy packs. */
module PolicyPacks {
  import opened Sequences
  import opened Text
  import opened GovernanceTable

  const EFFECTIVE := "policy_pack"
  const CANARY := "policy_pack_canary"
  const CHANGE_REQUEST := "policy_pack_change_request"

  datatype Content = Content(packId: string, checksum: string)

  /** The effective pack of a workspace. */
  datatype State = State(packId: string, checksum: string, version: int, previousPackId: string, previousChecksum: string)

  datatype Body =
    | Effective(state: State)
    | Canary(packId: string, checksum: string, requestedBy: string, approvedBy: string, changeRequestId: string,
             status: string, promotedBy: string)
    | ChangeRequest(packId: string, checksum: string, requester: string, status: string, approvedBy: string, reason: string)

  type Rows = seq<Row<Body>>

  /** The installed packs: the checksum of each, and whether it passes its invariant tests. */
  datatype Catalog = Catalog(checksum: string -> Option<string>, passes: string -> bool)

  const NO_PACK := State("", "", 0, "", "")

  function StateOf(body: Option<Body>): State {
    match body
    case Some(Effective(state)) => state
    case _ => NO_PACK
  }

  function Current(rows: Rows, workspaceId: string): State {
    StateOf(ActiveBody(rows, workspaceId, EFFECTIVE))
  }

  /** The state after one more step. */
  function Next(s: State, c: Content): State {
    State(c.packId, c.checksum, s.version + 1, s.packId, s.checksum)
  }

  datatype Request =
    | Ask(workspaceId: string, requester: string, packId: string, newId: string)
    | Decide(workspaceId: string, changeRequestId: string, approver: string, decision: string, reason: string,
             canary: bool, newId: string)
    | Promote(workspaceId: string, actor: string, newId: string)
    | Rollback(workspaceId: string)

  /** decision.strip().lower(), unknown words read as defer */
  function Normalized(decision: string): string {
    var d := Lower(Strip(decision));
    if d == "approve" || d == "reject" || d == "defer" then d else "defer"
  }

  /** The change request row of this workspace. */
  function Found(rows: Rows, workspaceId: string, id: string): (r: Option<nat>)
    ensures r.Some? ==> r.value < |rows| && rows[r.value].id == id && rows[r.value].workspaceId == workspaceId
                        && rows[r.value].policyType == CHANGE_REQUEST && rows[r.value].body.ChangeRequest?
  {
    var k := ById(rows, id);
    if k.None? || rows[k.value].workspaceId != workspaceId || rows[k.value].policyType != CHANGE_REQUEST
       || !rows[k.value].body.ChangeRequest? then None
    else k
  }

  function Decided(r: Row<Body>, status: string, approver: string, reason: string): Row<Body>
    requires r.body.ChangeRequest?
  {
    r.(status := status, body := r.body.(status := status, approvedBy := approver, reason := reason))
  }

  /** Why an approval is refused, None when it goes through. */
  function Refusal(c: Catalog, packId: string): Option<string> {
    if c.checksum(packId).None? then Some("pack_not_found")
    else if !c.passes(packId) then Some("policy_pack_test_failed")
    else None
  }

  function Asked(c: Catalog, rows: Rows, workspaceId: string, requester: string, packId: string, newId: string): Result<Rows> {
    if c.checksum(packId).None? then Err("pack_not_found")
    else if ActiveBody(rows, workspaceId, EFFECTIVE).Some? && Current(rows, workspaceId).packId == packId then
      Err("policy_pack_already_active")
    else Ok(rows + [Row(newId, workspaceId, CHANGE_REQUEST, "staged",
                        ChangeRequest(packId, c.checksum(packId).value, requester, "staged", "", ""))])
  }

  /** An approved pack becomes effective. */
  function Applied(rows: Rows, k: nat, r: Request): Rows
    requires k < |rows| && rows[k].body.ChangeRequest? && r.Decide?
  {
    var asked := rows[k].body;
    var next := Next(Current(rows, r.workspaceId), Content(Strip(asked.packId), asked.checksum));
    var after := Upserted(rows, r.workspaceId, EFFECTIVE, r.newId, Effective(next));
    after[k := Decided(rows[k], "applied", r.approver, r.reason)]
  }

  /** An approved pack becomes the canary. */
  function Staged(rows: Rows, k: nat, r: Request): Rows
    requires k < |rows| && rows[k].body.ChangeRequest? && r.Decide?
  {
    var asked := rows[k].body;
    var canary := Canary(Strip(asked.packId), asked.checksum, asked.requester, r.approver, r.changeRequestId,
                         "canary_active", "");
    var after := Upserted(rows, r.workspaceId, CANARY, r.newId, canary);
    after[k := Decided(rows[k], "canary_active", r.approver, r.reason)]
  }

  function DecidedRows(c: Catalog, rows: Rows, r: Request): Result<Rows>
    requires r.Decide?
  {
    var k := Found(rows, r.workspaceId, r.changeRequestId);
    var decision := Normalized(r.decision);
    if k.None? then Err("change_request_not_found")
    else if decision != "approve" then
      Ok(rows[k.value := Decided(rows[k.value], if decision == "reject" then "rejected" else "deferred", r.approver, r.reason)])
    else
      var refusal := Refusal(c, Strip(rows[k.value].body.packId));
      if refusal.Some? then Err(refusal.value)
      else if r.canary then Ok(Staged(rows, k.value, r))
      else Ok(Applied(rows, k.value, r))
  }

  /** The canary becomes effective and is retired. */
  function Promoted(rows: Rows, workspaceId: string, actor: string, newId: string): Result<Rows> {
    var canary := ActiveBody(rows, workspaceId, CANARY);
    if canary.None? || !canary.value.Canary? then Err("policy_pack_canary_not_found")
    else
      var next := Next(Current(rows, workspaceId), Content(canary.value.packId, canary.value.checksum));
      var after := Upserted(rows, workspaceId, EFFECTIVE, newId, Effective(next));
      var k := Active(after, workspaceId, CANARY);
      if k.None? then Ok(after)
      else Ok(after[k.value := after[k.value].(status := "promoted",
                                               body := canary.value.(status := "promoted", promotedBy := actor))])
  }

  function RolledBack(rows: Rows, workspaceId: string): Result<Rows> {
    var s := Current(rows, workspaceId);
    var packId, checksum := Strip(s.previousPackId), Strip(s.previousChecksum);
    if ActiveBody(rows, workspaceId, EFFECTIVE).None? then Err("policy_pack_not_configured")
    else if packId == "" || checksum == "" then Err("policy_pack_rollback_unavailable")
    else Ok(Upserted(rows, workspaceId, EFFECTIVE, "", Effective(Next(s, Content(packId, checksum)))))
  }

  function Handled(c: Catalog, rows: Rows, r: Request): Result<Rows> {
    match r
    case Ask(workspaceId, requester, packId, newId) => Asked(c, rows, workspaceId, requester, packId, newId)
    case Decide(_, _, _, _, _, _, _) => DecidedRows(c, rows, r)
    case Promote(workspaceId, actor, newId) => Promoted(rows, workspaceId, actor, newId)
    case Rollback(workspaceId) => RolledBack(rows, workspaceId)
  }

  /** The table after a request; a raised error leaves it as it was. */
  function Step(c: Catalog, rows: Rows, r: Request): Rows {
    match Handled(c, rows, r)
    case Err(_) => rows
    case Ok(after) => after
  }

  class Service {
    const catalog: Catalog
    var rows: Rows

    constructor (catalog: Catalog)
      ensures this.catalog == catalog && rows == []
    {
      this.catalog, rows := catalog, [];
    }

    method RequestChange(workspaceId: string, requester: string, packId: string, newId: string) returns (error: Option<string>)
      modifies this
      ensures rows == Step(catalog, old(rows), Ask(workspaceId, requester, packId, newId))
      ensures error.None? <==> Handled(catalog, old(rows), Ask(workspaceId, requester, packId, newId)).Ok?
    {
      var checksum := catalog.checksum(packId);
      if checksum.None? { return Some("pack_not_found"); }
      var current := ActiveBody(rows, workspaceId, EFFECTIVE);
      if current.Some? && StateOf(current).packId == packId { return Some("policy_pack_already_active"); }
      rows := rows + [Row(newId, workspaceId, CHANGE_REQUEST, "staged",
                          ChangeRequest(packId, checksum.value, requester, "staged", "", ""))];
      error := None;
    }

    method DecideChange(r: Request) returns (error: Option<string>)
      requires r.Decide?
      modifies this
      ensures rows == Step(catalog, old(rows), r) && (error.None? <==> Handled(catalog, old(rows), r).Ok?)
    {
      var k := Found(rows, r.workspaceId, r.changeRequestId);
      if k.None? { return Some("change_request_not_found"); }
      var row, decision := rows[k.value], Normalized(r.decision);
      if decision != "approve" {
        var status := if decision == "reject" then "rejected" else "deferred";
        rows := rows[k.value := Decided(row, status, r.approver, r.reason)];
        return None;
      }
      var packId := Strip(row.body.packId);
      if catalog.checksum(packId).None? { return Some("pack_not_found"); }
      if !catalog.passes(packId) { return Some("policy_pack_test_failed"); }
      if r.canary {
        var canary := Canary(packId, row.body.checksum, row.body.requester, r.approver, r.changeRequestId, "canary_active", "");
        rows := Upserted(rows, r.workspaceId, CANARY, r.newId, canary);
        rows := rows[k.value := Decided(row, "canary_active", r.approver, r.reason)];
        return None;
      }
      var active := Current(rows, r.workspaceId);
      var next := State(packId, row.body.checksum, active.version + 1, active.packId, active.checksum);
      rows := Upserted(rows, r.workspaceId, EFFECTIVE, r.newId, Effective(next));
      rows := rows[k.value := Decided(row, "applied", r.approver, r.reason)];
      error := None;
    }

    method PromoteCanary(workspaceId: string, actor: string, newId: string) returns (error: Option<string>)
      modifies this
      ensures rows == Step(catalog, old(rows), Promote(workspaceId, actor, newId))
      ensures error.None? <==> Handled(catalog, old(rows), Promote(workspaceId, actor, newId)).Ok?
    {
      var canary := ActiveBody(rows, workspaceId, CANARY);
      if canary.None? || !canary.value.Canary? { return Some("policy_pack_canary_not_found"); }
      var active := Current(rows, workspaceId);
      var next := State(canary.value.packId, canary.value.checksum, active.version + 1, active.packId, active.checksum);
      rows := Upserted(rows, workspaceId, EFFECTIVE, newId, Effective(next));
      var k := Active(rows, workspaceId, CANARY);
      if k.Some? {
        var retired := canary.value.(status := "promoted", promotedBy := actor);
        rows := rows[k.value := rows[k.value].(status := "promoted", body := retired)];
      }
      error := None;
    }

    method RollbackPack(workspaceId: string) returns (error: Option<string>)
      modifies this
      ensures rows == Step(catalog, old(rows), Rollback(workspaceId))
      ensures error.None? <==> Handled(catalog, old(rows), Rollback(workspaceId)).Ok?
    {
      var k := Active(rows, workspaceId, EFFECTIVE);
      if k.None? { return Some("policy_pack_not_configured"); }
      var active := StateOf(Some(rows[k.value].body));
      var previousPackId, previousChecksum := Strip(active.previousPackId), Strip(active.previousChecksum);
      if previousPackId == "" || previousChecksum == "" { return Some("policy_pack_rollback_unavailable"); }
      var next := State(previousPackId, previousChecksum, active.version + 1, active.packId, active.checksum);
      rows := rows[k.value := rows[k.value].(body := Effective(next), status := "active")];
      error := None;
    }
  }

  // ----- one request -----

  /** What a request makes effective in its workspace, None when it does not change the effective pack. */
  function Advance(c: Catalog, rows: Rows, r: Request): Option<Content> {
    if Handled(c, rows, r).Err? then None
    else match r
      case Ask(_, _, _, _) => None
      case Decide(_, _, _, _, _, canary, _) =>
        var k := Found(rows, r.workspaceId, r.changeRequestId);
        if k.Some? && Normalized(r.decision) == "approve" && !canary
        then Some(Content(Strip(rows[k.value].body.packId), rows[k.value].body.checksum)) else None
      case Promote(_, _, _) =>
        var canary := ActiveBody(rows, r.workspaceId, CANARY);
        if canary.Some? && canary.value.Canary? then Some(Content(canary.value.packId, canary.value.checksum)) else None
      case Rollback(_) =>
        var state := Current(rows, r.workspaceId);
        Some(Content(Strip(state.previousPackId), Strip(state.previousChecksum)))
  }

  /** The effective row of a workspace after a request: the next state of it, or what it was. */
  ghost predicate Moves(before: Rows, after: Rows, workspaceId: string, content: Option<Content>) {
    && ActiveBody(after, workspaceId, EFFECTIVE)
       == (if content.Some? then Some(Effective(Next(Current(before, workspaceId), content.value)))
           else ActiveBody(before, workspaceId, EFFECTIVE))
    && (OneActive(before, workspaceId, EFFECTIVE) ==> OneActive(after, workspaceId, EFFECTIVE))
  }

  /** Writing the next state, then touching a row that is not an effective pack's. */
  lemma AdvancedThenMarked(rows: Rows, workspaceId: string, newId: string, content: Content, k: nat, marked: Row<Body>,
                           w: string)
    requires var after := Upserted(rows, workspaceId, EFFECTIVE, newId, Effective(Next(Current(rows, workspaceId), content)));
             k < |after| && after[k].policyType != EFFECTIVE && marked.policyType != EFFECTIVE
    ensures var after := Upserted(rows, workspaceId, EFFECTIVE, newId, Effective(Next(Current(rows, workspaceId), content)));
            Moves(rows, after[k := marked], w, if w == workspaceId then Some(content) else None)
  {
    var body := Effective(Next(Current(rows, workspaceId), content));
    var after := Upserted(rows, workspaceId, EFFECTIVE, newId, body);
    OtherRowChanged(after, k, marked, w, EFFECTIVE);
    SameActiveBody(after, after[k := marked], w, EFFECTIVE);
    AdvancedOnly(rows, workspaceId, newId, content, w);
  }

  lemma AdvancedOnly(rows: Rows, workspaceId: string, newId: string, content: Content, w: string)
    ensures var after := Upserted(rows, workspaceId, EFFECTIVE, newId, Effective(Next(Current(rows, workspaceId), content)));
            Moves(rows, after, w, if w == workspaceId then Some(content) else None)
  {
    var body := Effective(Next(Current(rows, workspaceId), content));
    var after := Upserted(rows, workspaceId, EFFECTIVE, newId, body);
    if w == workspaceId {
      UpsertedIsActive(rows, workspaceId, EFFECTIVE, newId, body);
    } else {
      OtherUpsert(rows, workspaceId, EFFECTIVE, newId, body, w, EFFECTIVE);
      SameActiveBody(rows, after, w, EFFECTIVE);
    }
  }

  lemma DecideMoves(c: Catalog, rows: Rows, r: Request, w: string)
    requires r.Decide?
    ensures Moves(rows, Step(c, rows, r), w, if w == r.workspaceId then Advance(c, rows, r) else None)
  {
    var k := Found(rows, r.workspaceId, r.changeRequestId);
    if DecidedRows(c, rows, r).Ok? && k.Some? {
      var row := rows[k.value];
      if Normalized(r.decision) != "approve" {
        OtherRowChanged(rows, k.value, Decided(row, Step(c, rows, r)[k.value].status, r.approver, r.reason), w, EFFECTIVE);
        SameActiveBody(rows, Step(c, rows, r), w, EFFECTIVE);
      } else if r.canary {
        StagedKeepsEffective(rows, k.value, r, w);
      } else {
        AdvancedThenMarked(rows, r.workspaceId, r.newId, Content(Strip(row.body.packId), row.body.checksum), k.value,
                           Decided(row, "applied", r.approver, r.reason), w);
      }
    }
  }

  lemma StagedKeepsEffective(rows: Rows, k: nat, r: Request, w: string)
    requires k < |rows| && rows[k].body.ChangeRequest? && rows[k].policyType == CHANGE_REQUEST && r.Decide?
    ensures Moves(rows, Staged(rows, k, r), w, None)
  {
    var asked := rows[k].body;
    var canary := Canary(Strip(asked.packId), asked.checksum, asked.requester, r.approver, r.changeRequestId,
                         "canary_active", "");
    var after := Upserted(rows, r.workspaceId, CANARY, r.newId, canary);
    OtherUpsert(rows, r.workspaceId, CANARY, r.newId, canary, w, EFFECTIVE);
    SameActiveBody(rows, after, w, EFFECTIVE);
    OtherRowChanged(after, k, Decided(rows[k], "canary_active", r.approver, r.reason), w, EFFECTIVE);
    SameActiveBody(after, Staged(rows, k, r), w, EFFECTIVE);
  }

  lemma PromoteMoves(c: Catalog, rows: Rows, r: Request, w: string)
    requires r.Promote?
    ensures Moves(rows, Step(c, rows, r), w, if w == r.workspaceId then Advance(c, rows, r) else None)
  {
    var canary := ActiveBody(rows, r.workspaceId, CANARY);
    if canary.Some? && canary.value.Canary? {
      var content := Content(canary.value.packId, canary.value.checksum);
      var body := Effective(Next(Current(rows, r.workspaceId), content));
      var after := Upserted(rows, r.workspaceId, EFFECTIVE, r.newId, body);
      var k := Active(after, r.workspaceId, CANARY);
      AdvancedOnly(rows, r.workspaceId, r.newId, content, w);
      if k.Some? {
        AdvancedThenMarked(rows, r.workspaceId, r.newId, content, k.value, Step(c, rows, r)[k.value], w);
      }
    }
  }

  /** Every request advances the effective pack of its own workspace by one state or leaves it; others are untouched. */
  lemma StepMoves(c: Catalog, rows: Rows, r: Request, w: string)
    ensures Moves(rows, Step(c, rows, r), w, if w == r.workspaceId then Advance(c, rows, r) else None)
  {
    match r
    case Ask(_, _, _, _) => SameActiveBody(rows, Step(c, rows, r), w, EFFECTIVE);
    case Decide(_, _, _, _, _, _, _) => DecideMoves(c, rows, r, w);
    case Promote(_, _, _) => PromoteMoves(c, rows, r, w);
    case Rollback(_) =>
      if Handled(c, rows, r).Ok? { AdvancedOnly(rows, r.workspaceId, "", Advance(c, rows, r).value, w); }
  }

  // ----- every run -----

  function After(c: Catalog, log: seq<Request>): Rows {
    if log == [] then [] else Step(c, After(c, log[..|log| - 1]), log[|log| - 1])
  }

  /** The packs that were effective in the workspace, in order: one per apply, promotion and rollback. */
  function History(c: Catalog, log: seq<Request>, w: string): seq<Content> {
    if log == [] then []
    else
      var front, last := log[..|log| - 1], log[|log| - 1];
      var content := Advance(c, After(c, front), last);
      if last.workspaceId == w && content.Some? then History(c, front, w) + [content.value] else History(c, front, w)
  }

  /** The effective row tells the history: its length, its last entry and the one before. */
  ghost predicate Tells(rows: Rows, w: string, h: seq<Content>) {
    var s := Current(rows, w);
    && OneActive(rows, w, EFFECTIVE)
    && (ActiveBody(rows, w, EFFECTIVE).None? <==> h == []) && s.version == |h|
    && (h != [] ==> Content(s.packId, s.checksum) == h[|h| - 1])
    && Content(s.previousPackId, s.previousChecksum) == if |h| >= 2 then h[|h| - 2] else Content("", "")
  }

  function Extended(h: seq<Content>, content: Option<Content>): seq<Content> {
    if content.Some? then h + [content.value] else h
  }

  lemma MovesTell(before: Rows, after: Rows, w: string, content: Option<Content>, h: seq<Content>)
    requires Tells(before, w, h) && Moves(before, after, w, content)
    ensures Tells(after, w, Extended(h, content))
  {
  }

  /** In every reachable state: at most one effective row; its version is the number of applies, promotions and
      rollbacks; the previous pack it names is the one effective just before. */
  lemma {:induction false} VersionCountsSteps(c: Catalog, log: seq<Request>, w: string)
    ensures Tells(After(c, log), w, History(c, log, w))
  {
    if log != [] {
      var front, last := log[..|log| - 1], log[|log| - 1];
      var content := if w == last.workspaceId then Advance(c, After(c, front), last) else None;
      VersionCountsSteps(c, front, w);
      StepMoves(c, After(c, front), last, w);
      MovesTell(After(c, front), After(c, log), w, content, History(c, front, w));
      assert History(c, log, w) == Extended(History(c, front, w), content);
    }
  }

  /** Two rollbacks in a row, when the first is possible, restore the same content two versions later. */
  lemma TwoRollbacksRestore(c: Catalog, rows: Rows, w: string)
    requires ActiveBody(rows, w, EFFECTIVE).Some? && IsStripped(Current(rows, w).packId) && IsStripped(Current(rows, w).checksum)
    requires Current(rows, w).packId != "" && Current(rows, w).checksum != ""
    requires Handled(c, rows, Rollback(w)).Ok?
    ensures var s, t := Current(rows, w), Current(Step(c, Step(c, rows, Rollback(w)), Rollback(w)), w);
            t.packId == s.packId && t.checksum == s.checksum && t.version == s.version + 2
  {
    var once := Step(c, rows, Rollback(w));
    StepMoves(c, rows, Rollback(w), w);
    StripFixed(Current(rows, w).packId);
    StripFixed(Current(rows, w).checksum);
    StepMoves(c, once, Rollback(w), w);
  }

  // ----- when a rollback is possible -----

  /** Pack checksums are digests and pack ids not blank, both without surrounding space. */
  ghost predicate WellNamed(c: Catalog) {
    forall id | c.checksum(id).Some? :: id != "" && IsStripped(id) && c.checksum(id).value != "" && IsStripped(c.checksum(id).value)
  }

  predicate Named(content: Content) {
    content.packId != "" && IsStripped(content.packId) && content.checksum != "" && IsStripped(content.checksum)
  }

  predicate BodyNamed(body: Body) {
    match body
    case ChangeRequest(packId, checksum, _, _, _, _) => Named(Content(packId, checksum))
    case Canary(packId, checksum, _, _, _, _, _) => Named(Content(packId, checksum))
    case Effective(_) => true
  }

  /** Rows name packs of the catalog. */
  ghost predicate RowsNamed(rows: Rows) {
    forall i | 0 <= i < |rows| :: BodyNamed(rows[i].body)
  }

  lemma UpsertNamed(rows: Rows, workspaceId: string, policyType: string, newId: string, body: Body)
    requires RowsNamed(rows) && BodyNamed(body)
    ensures RowsNamed(Upserted(rows, workspaceId, policyType, newId, body))
  {
  }

  lemma ReplaceNamed(rows: Rows, k: nat, r: Row<Body>)
    requires RowsNamed(rows) && k < |rows| && BodyNamed(r.body)
    ensures RowsNamed(rows[k := r])
  {
  }

  lemma ActiveNamed(rows: Rows, workspaceId: string, policyType: string)
    requires RowsNamed(rows) && ActiveBody(rows, workspaceId, policyType).Some?
    ensures BodyNamed(ActiveBody(rows, workspaceId, policyType).value)
  {
  }

  lemma DecideKeepsNamed(c: Catalog, rows: Rows, r: Request)
    requires RowsNamed(rows) && r.Decide? && DecidedRows(c, rows, r).Ok?
    ensures RowsNamed(DecidedRows(c, rows, r).value)
  {
    var k := Found(rows, r.workspaceId, r.changeRequestId).value;
    var asked := rows[k].body;
    StripFixed(asked.packId);
    if Normalized(r.decision) != "approve" {
      ReplaceNamed(rows, k, DecidedRows(c, rows, r).value[k]);
    } else if r.canary {
      var canary := Canary(Strip(asked.packId), asked.checksum, asked.requester, r.approver, r.changeRequestId,
                           "canary_active", "");
      UpsertNamed(rows, r.workspaceId, CANARY, r.newId, canary);
      ReplaceNamed(Upserted(rows, r.workspaceId, CANARY, r.newId, canary), k, Staged(rows, k, r)[k]);
    } else {
      var next := Effective(Next(Current(rows, r.workspaceId), Content(Strip(asked.packId), asked.checksum)));
      UpsertNamed(rows, r.workspaceId, EFFECTIVE, r.newId, next);
      ReplaceNamed(Upserted(rows, r.workspaceId, EFFECTIVE, r.newId, next), k, Applied(rows, k, r)[k]);
    }
  }

  lemma PromoteKeepsNamed(rows: Rows, workspaceId: string, actor: string, newId: string)
    requires RowsNamed(rows) && Promoted(rows, workspaceId, actor, newId).Ok?
    ensures RowsNamed(Promoted(rows, workspaceId, actor, newId).value)
  {
    ActiveNamed(rows, workspaceId, CANARY);
    var canary := ActiveBody(rows, workspaceId, CANARY).value;
    var next := Effective(Next(Current(rows, workspaceId), Content(canary.packId, canary.checksum)));
    UpsertNamed(rows, workspaceId, EFFECTIVE, newId, next);
  }

  lemma StepKeepsNamed(c: Catalog, rows: Rows, r: Request)
    requires WellNamed(c) && RowsNamed(rows)
    ensures RowsNamed(Step(c, rows, r))
  {
    if Handled(c, rows, r).Ok? {
      match r
      case Ask(_, _, _, _) =>
      case Decide(_, _, _, _, _, _, _) => DecideKeepsNamed(c, rows, r);
      case Promote(workspaceId, actor, newId) => PromoteKeepsNamed(rows, workspaceId, actor, newId);
      case Rollback(_) =>
    }
  }

  lemma {:induction false} ReachableNamed(c: Catalog, log: seq<Request>)
    requires WellNamed(c)
    ensures RowsNamed(After(c, log))
  {
    if log != [] {
      ReachableNamed(c, log[..|log| - 1]);
      StepKeepsNamed(c, After(c, log[..|log| - 1]), log[|log| - 1]);
    }
  }

  lemma AdvanceIsNamed(c: Catalog, rows: Rows, r: Request, h: seq<Content>)
    requires WellNamed(c) && RowsNamed(rows) && Tells(rows, r.workspaceId, h) && (forall x | x in h :: Named(x))
    ensures Advance(c, rows, r).Some? ==> Named(Advance(c, rows, r).value)
  {
    match r
    case Ask(_, _, _, _) =>
    case Decide(_, _, _, _, _, _, _) =>
      var k := Found(rows, r.workspaceId, r.changeRequestId);
      if k.Some? { StripFixed(rows[k.value].body.packId); }
    case Promote(_, _, _) =>
    case Rollback(_) =>
      var s := Current(rows, r.workspaceId);
      if |h| >= 2 {
        assert h[|h| - 2] in h;
        StripFixed(s.previousPackId);
        StripFixed(s.previousChecksum);
      }
  }

  lemma {:induction false} HistoryNamed(c: Catalog, log: seq<Request>, w: string)
    requires WellNamed(c)
    ensures forall x | x in History(c, log, w) :: Named(x)
  {
    if log != [] {
      var front, last := log[..|log| - 1], log[|log| - 1];
      HistoryNamed(c, front, w);
      ReachableNamed(c, front);
      VersionCountsSteps(c, front, w);
      if last.workspaceId == w { AdvanceIsNamed(c, After(c, front), last, History(c, front, w)); }
    }
  }

  lemma RollbackGoesBack(c: Catalog, rows: Rows, w: string, h: seq<Content>)
    requires Tells(rows, w, h) && forall x | x in h :: Named(x)
    ensures Advance(c, rows, Rollback(w)) == if |h| >= 2 then Some(h[|h| - 2]) else None
    ensures Handled(c, rows, Rollback(w)).Ok? <==> |h| >= 2
  {
    var s := Current(rows, w);
    if |h| >= 2 {
      assert h[|h| - 2] in h;
      StripFixed(s.previousPackId);
      StripFixed(s.previousChecksum);
    }
  }

  lemma HistoryNext(c: Catalog, log: seq<Request>, r: Request)
    ensures History(c, log + [r], r.workspaceId) == Extended(History(c, log, r.workspaceId), Advance(c, After(c, log), r))
  {
    assert (log + [r])[..|log|] == log;
  }

  /** Over every run a rollback is possible exactly when at least two packs have been effective, and it makes the one
      before last effective again. */
  lemma RollbackPossibleIff(c: Catalog, log: seq<Request>, w: string)
    requires WellNamed(c)
    ensures var h := History(c, log, w);
            && (Handled(c, After(c, log), Rollback(w)).Ok? <==> |h| >= 2)
            && (|h| >= 2 ==> History(c, log + [Rollback(w)], w) == h + [h[|h| - 2]])
  {
    var rows, h := After(c, log), History(c, log, w);
    assert Advance(c, rows, Rollback(w)) == (if |h| >= 2 then Some(h[|h| - 2]) else None)
           && (Handled(c, rows, Rollback(w)).Ok? <==> |h| >= 2) by {
      VersionCountsSteps(c, log, w);
      HistoryNamed(c, log, w);
      RollbackGoesBack(c, rows, w, h);
    }
    HistoryNext(c, log, Rollback(w));
  }

  /** Decisions are not final: a request that was applied can be approved again, one that was rejected can be applied. */
  lemma DecidedRequestsCanBeApproved(c: Catalog, rows: Rows, r: Request, k: nat)
    requires r.Decide? && Normalized(r.decision) == "approve" && Found(rows, r.workspaceId, r.changeRequestId) == Some(k)
    requires Refusal(c, Strip(rows[k].body.packId)).None?
    ensures Handled(c, rows, r).Ok?
    ensures r.canary || Current(Step(c, rows, r), r.workspaceId).version == Current(rows, r.workspaceId).version + 1
  {
    StepMoves(c, rows, r, r.workspaceId);
  }
}
