/** A semantic query from the request to its answer: what the bound text passes, and what it means. */
module BoundQuery {
  import opened Text
  import opened Semantic
  import opened SemanticBinding
  import opened Executor
  import opened QueryScope
  import opened QuerySafety
  import StarJoin
  import Sql

  type Database = Sql.Database

  /** The groups of the query are those of the semantic query, each with its aggregate. */
  ghost predicate Denotes(db: Database, m: Manifest, metric: Metric, refs: seq<GroupRef>, select: Sql.Select) {
    && (forall key | key in StarJoin.Meaning(db, m, metric, refs) ::
          StarJoin.KeyValues(refs, key) in Sql.Evaluate(db, select)
          && Sql.Evaluate(db, select)[StarJoin.KeyValues(refs, key)] == StarJoin.Meaning(db, m, metric, refs)[key])
    && (forall group | group in Sql.Evaluate(db, select) ::
          exists key :: key in StarJoin.Meaning(db, m, metric, refs) && StarJoin.KeyValues(refs, key) == group)
  }

  /** The text is that of a query compiled from a manifest in normal form, passes the read-only check, unchanged,
      exactly when the request is harmless, and with inner and left joins means the request on every database. */
  ghost predicate RightText(text: string, m: Manifest, metric: Metric, refs: seq<GroupRef>, select: Sql.Select) {
    && text == Sql.SelectText(select) && Compile(m, metric, refs) == Ok(select)
    && (ReadOnly(text).Ok? <==> RequestHarmless(m, metric, refs))
    && (RequestHarmless(m, metric, refs) ==> ReadOnly(text) == Ok(text))
    && (StarJoin.OnlyInnerAndLeft(select) ==> forall db :: Denotes(db, m, metric, refs, select))
  }

  lemma CompiledIsRight(m: Manifest, metric: Metric, refs: seq<GroupRef>, select: Sql.Select)
    requires NormalForm(m) && metric in m.metrics && RefsNamed(refs) && Compile(m, metric, refs) == Ok(select)
    ensures RightText(Sql.SelectText(select), m, metric, refs, select)
  {
    CompiledTextPasses(m, metric, refs, select);
    if StarJoin.OnlyInnerAndLeft(select) {
      forall db ensures Denotes(db, m, metric, refs, select) { StarJoin.SqlMeansQuery(db, m, metric, refs, select); }
    }
  }

  /** Whatever a successful binding returns is such a text, for the metric and the group_by that were asked for. */
  lemma BoundTextIsRight(state: Option<map<string, Json>>, workspaceId: string, query: map<string, Json>,
                         checksumOf: Manifest -> string)
    returns (m: Manifest, metric: Metric, refs: seq<GroupRef>, select: Sql.Select)
    requires Bound(state, workspaceId, query, checksumOf).Ok?
    ensures NormalForm(m) && m.workspaceId == workspaceId && metric in m.metrics
    ensures BindsTo(m, metric, Get(query, "group_by", List([], "[]")),
                    Bound(state, workspaceId, query, checksumOf).value, refs, select)
    ensures RightText(Bound(state, workspaceId, query, checksumOf).value.sqlText, m, metric, refs, select)
  {
    var b := Bound(state, workspaceId, query, checksumOf).value;
    BoundMeans(state, workspaceId, query, checksumOf);
    m, metric, refs, select :|
      && NormalForm(m) && m.workspaceId == workspaceId && metric in m.metrics
      && BindsTo(m, metric, Get(query, "group_by", List([], "[]")), b, refs, select);
    assert RefsNamed(refs);
    CompiledIsRight(m, metric, refs, select);
  }
}
