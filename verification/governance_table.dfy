/** The governance policy table: rows of several types per workspace, some of which have one active row. */
module GovernanceTable {
  import opened Text

  datatype Row<B> = Row(id: string, workspaceId: string, policyType: string, status: string, body: B)

  predicate IsActive<B>(r: Row<B>, workspaceId: string, policyType: string) {
    r.workspaceId == workspaceId && r.policyType == policyType && r.status == "active"
  }

  /** The query for the active row: its first result. */
  function Active<B>(rows: seq<Row<B>>, workspaceId: string, policyType: string): (r: Option<nat>)
    ensures r.Some? ==> r.value < |rows| && IsActive(rows[r.value], workspaceId, policyType)
  {
    if rows == [] then None
    else
      var front := Active(rows[..|rows| - 1], workspaceId, policyType);
      if front.Some? then front
      else if IsActive(rows[|rows| - 1], workspaceId, policyType) then Some(|rows| - 1)
      else None
  }

  /** The body of the active row. */
  function ActiveBody<B>(rows: seq<Row<B>>, workspaceId: string, policyType: string): Option<B> {
    var k := Active(rows, workspaceId, policyType);
    if k.Some? then Some(rows[k.value].body) else None
  }

  /** The row with this primary key. */
  function ById<B>(rows: seq<Row<B>>, id: string): (r: Option<nat>)
    ensures r.Some? ==> r.value < |rows| && rows[r.value].id == id
  {
    if rows == [] then None
    else if rows[|rows| - 1].id == id then Some(|rows| - 1)
    else ById(rows[..|rows| - 1], id)
  }

  /** Rewrites the active row, or adds one. */
  function Upserted<B>(rows: seq<Row<B>>, workspaceId: string, policyType: string, newId: string, body: B): seq<Row<B>> {
    var k := Active(rows, workspaceId, policyType);
    if k.Some? then rows[k.value := rows[k.value].(body := body, status := "active")]
    else rows + [Row(newId, workspaceId, policyType, "active", body)]
  }

  /** At most one row of the type is active in the workspace. */
  ghost predicate OneActive<B>(rows: seq<Row<B>>, workspaceId: string, policyType: string) {
    forall i, j | 0 <= i < j < |rows| ::
      !(IsActive(rows[i], workspaceId, policyType) && IsActive(rows[j], workspaceId, policyType))
  }

  /** The first active row is found wherever it is. */
  lemma {:induction false} ActiveIsFirst<B>(rows: seq<Row<B>>, workspaceId: string, policyType: string, k: nat)
    requires k < |rows| && IsActive(rows[k], workspaceId, policyType)
    requires forall i | 0 <= i < k :: !IsActive(rows[i], workspaceId, policyType)
    ensures Active(rows, workspaceId, policyType) == Some(k)
  {
    if k < |rows| - 1 {
      ActiveIsFirst(rows[..|rows| - 1], workspaceId, policyType, k);
    } else {
      NoActive(rows[..k], workspaceId, policyType);
    }
  }

  lemma {:induction false} NoActive<B>(rows: seq<Row<B>>, workspaceId: string, policyType: string)
    ensures Active(rows, workspaceId, policyType).None? <==>
            forall i | 0 <= i < |rows| :: !IsActive(rows[i], workspaceId, policyType)
  {
    if rows != [] {
      var front := rows[..|rows| - 1];
      NoActive(front, workspaceId, policyType);
      assert forall i | 0 <= i < |front| :: front[i] == rows[i];
    }
  }

  lemma {:induction false} NoneBefore<B>(rows: seq<Row<B>>, workspaceId: string, policyType: string)
    ensures var k := Active(rows, workspaceId, policyType);
            k.Some? ==> forall i | 0 <= i < k.value :: !IsActive(rows[i], workspaceId, policyType)
  {
    if rows != [] {
      NoneBefore(rows[..|rows| - 1], workspaceId, policyType);
      NoActive(rows[..|rows| - 1], workspaceId, policyType);
    }
  }

  /** After an upsert the active row has the new body, and there is still only one. */
  lemma UpsertedIsActive<B>(rows: seq<Row<B>>, workspaceId: string, policyType: string, newId: string, body: B)
    ensures ActiveBody(Upserted(rows, workspaceId, policyType, newId, body), workspaceId, policyType) == Some(body)
    ensures OneActive(rows, workspaceId, policyType) ==>
              OneActive(Upserted(rows, workspaceId, policyType, newId, body), workspaceId, policyType)
  {
    var k, after := Active(rows, workspaceId, policyType), Upserted(rows, workspaceId, policyType, newId, body);
    NoneBefore(rows, workspaceId, policyType);
    NoActive(rows, workspaceId, policyType);
    ActiveIsFirst(after, workspaceId, policyType, if k.Some? then k.value else |rows|);
  }

  /** Two tables whose rows agree on what is active, and on the active bodies. */
  ghost predicate SameActive<B>(a: seq<Row<B>>, b: seq<Row<B>>, workspaceId: string, policyType: string) {
    && |a| <= |b|
    && (forall i | 0 <= i < |a| :: IsActive(a[i], workspaceId, policyType) <==> IsActive(b[i], workspaceId, policyType))
    && (forall i | 0 <= i < |a| && IsActive(a[i], workspaceId, policyType) :: a[i].body == b[i].body)
    && (forall i | |a| <= i < |b| :: !IsActive(b[i], workspaceId, policyType))
  }

  lemma SameActiveBody<B>(a: seq<Row<B>>, b: seq<Row<B>>, workspaceId: string, policyType: string)
    requires SameActive(a, b, workspaceId, policyType)
    ensures ActiveBody(b, workspaceId, policyType) == ActiveBody(a, workspaceId, policyType)
    ensures OneActive(a, workspaceId, policyType) ==> OneActive(b, workspaceId, policyType)
  {
    var k := Active(a, workspaceId, policyType);
    NoActive(a, workspaceId, policyType);
    NoActive(b, workspaceId, policyType);
    NoneBefore(a, workspaceId, policyType);
    if k.Some? { ActiveIsFirst(b, workspaceId, policyType, k.value); }
  }

  /** Writing rows of another type or workspace leaves the active row alone. */
  lemma OtherUpsert<B>(rows: seq<Row<B>>, workspaceId: string, policyType: string, newId: string, body: B,
                       otherWorkspace: string, otherType: string)
    requires workspaceId != otherWorkspace || policyType != otherType
    ensures SameActive(rows, Upserted(rows, workspaceId, policyType, newId, body), otherWorkspace, otherType)
  {
  }

  lemma OtherRowChanged<B>(rows: seq<Row<B>>, k: nat, r: Row<B>, workspaceId: string, policyType: string)
    requires k < |rows| && !IsActive(rows[k], workspaceId, policyType) && !IsActive(r, workspaceId, policyType)
    ensures SameActive(rows, rows[k := r], workspaceId, policyType)
  {
  }
}
