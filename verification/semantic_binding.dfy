/** backend/gateway/semantic_binding.py: from a metric and a group_by list to star-join SQL. */
module SemanticBinding {
  import opened Sequences
  import opened Text
  import opened Semantic
  import Sql

  /** entity.column, the form in which the code keeps a group_by item */
  datatype GroupRef = GroupRef(entity: string, column: string)

  function RefText(g: GroupRef): string {
    g.entity + "." + g.column
  }

  function RefEntity(g: GroupRef): string { g.entity }

  datatype Binding = Binding(sqlText: string, datasetIds: seq<string>, metricId: string, groupBy: seq<string>,
                             manifestChecksum: string)

  // ----- lookups -----

  /** {entity["entity_id"]: entity for entity in entities} */
  function EntityById(entities: seq<Entity>): map<string, Entity> {
    if entities == [] then map[]
    else EntityById(entities[..|entities| - 1])[entities[|entities| - 1].id := entities[|entities| - 1]]
  }

  /** _find_metric */
  function FindMetric(metrics: seq<Metric>, id: string): Option<Metric> {
    if metrics == [] then None
    else if metrics[0].id == id then Some(metrics[0])
    else FindMetric(metrics[1..], id)
  }

  /** _find_join_between: the first join listed for the pair, whichever way round it is written */
  function FindJoinBetween(joins: seq<Join>, left: string, right: string): Option<Join> {
    if joins == [] then None
    else if {joins[0].leftEntity, joins[0].rightEntity} == {left, right} then Some(joins[0])
    else FindJoinBetween(joins[1..], left, right)
  }

  // ----- group_by -----

  /** One turn of the loop in _parse_group_by; blank items are skipped. */
  function GroupItem(raw: Json, defaultEntity: string, entityById: map<string, Entity>): Result<Option<GroupRef>> {
    var item := Strip(TextOf(raw));
    if item == "" then Ok(None)
    else
      var parts := if '.' in item then SplitFirst(item, '.') else (defaultEntity, item);
      var entity := if '.' in item then Strip(parts.0) else parts.0;
      var column := if '.' in item then Strip(parts.1) else parts.1;
      if !MatchesIdPattern(entity) || !MatchesIdPattern(column) then Err("semantic_group_by_invalid")
      else if entity !in entityById then Err("semantic_group_by_entity_not_found")
      else if column != entityById[entity].primaryKey && column !in entityById[entity].attributes then
        Err("semantic_group_by_column_not_found")
      else Ok(Some(GroupRef(entity, column)))
  }

  /** The distinct items in order of first occurrence. */
  function GroupRefs(items: seq<Json>, defaultEntity: string, entityById: map<string, Entity>): Result<seq<GroupRef>> {
    if items == [] then Ok([])
    else match GroupRefs(items[..|items| - 1], defaultEntity, entityById)
      case Err(e) => Err(e)
      case Ok(refs) =>
        match GroupItem(items[|items| - 1], defaultEntity, entityById)
        case Err(e) => Err(e)
        case Ok(None) => Ok(refs)
        case Ok(Some(ref)) => Ok(if ref in refs then refs else refs + [ref])
  }

  method ParseGroupBy(groupByRaw: Json, defaultEntity: string, entityById: map<string, Entity>)
    returns (r: Result<seq<string>>)
    requires IsIdent(defaultEntity)
    ensures r == match GroupByOf(groupByRaw, defaultEntity, entityById)
                 case Err(e) => Err(e)
                 case Ok(refs) => Ok(Mapped(RefText, refs))
  {
    if !groupByRaw.List? { return Err("semantic_group_by_invalid"); }
    var items := groupByRaw.items;
    var normalized: seq<string> := [];
    ghost var refs: seq<GroupRef> := [];
    for i := 0 to |items|
      invariant GroupRefs(items[..i], defaultEntity, entityById) == Ok(refs)
      invariant normalized == Mapped(RefText, refs) && forall g | g in refs :: IsIdent(g.entity)
    {
      var item := GroupItem(items[i], defaultEntity, entityById);
      GroupRefsNext(items, defaultEntity, entityById, i);
      if item.Err? {
        GroupRefsStop(items, defaultEntity, entityById, i + 1);
        return Err(item.error);
      }
      if item.value.Some? {
        var key := RefText(item.value.value);
        GroupItemIdents(items[i], defaultEntity, entityById);
        RefTextIn(refs, item.value.value);
        if key !in normalized {
          normalized := normalized + [key];
          refs := refs + [item.value.value];
        }
      }
    }
    assert items[..|items|] == items;
    r := Ok(normalized);
  }

  function GroupByOf(groupByRaw: Json, defaultEntity: string, entityById: map<string, Entity>): Result<seq<GroupRef>> {
    if !groupByRaw.List? then Err("semantic_group_by_invalid")
    else GroupRefs(groupByRaw.items, defaultEntity, entityById)
  }

  lemma GroupRefsNext(items: seq<Json>, defaultEntity: string, entityById: map<string, Entity>, i: nat)
    requires i < |items| && GroupRefs(items[..i], defaultEntity, entityById).Ok?
    ensures var refs := GroupRefs(items[..i], defaultEntity, entityById).value;
            GroupRefs(items[..i + 1], defaultEntity, entityById) ==
            match GroupItem(items[i], defaultEntity, entityById)
            case Err(e) => Err(e)
            case Ok(None) => Ok(refs)
            case Ok(Some(ref)) => Ok(if ref in refs then refs else refs + [ref])
  {
    assert items[..i + 1][..i] == items[..i];
  }

  lemma {:induction false} GroupRefsStop(items: seq<Json>, defaultEntity: string, entityById: map<string, Entity>, n: nat)
    requires n <= |items| && GroupRefs(items[..n], defaultEntity, entityById).Err?
    ensures GroupRefs(items, defaultEntity, entityById) == GroupRefs(items[..n], defaultEntity, entityById)
    decreases |items| - n
  {
    if n == |items| {
      assert items[..n] == items;
    } else {
      assert items[..n + 1][..n] == items[..n];
      GroupRefsStop(items, defaultEntity, entityById, n + 1);
    }
  }

  lemma GroupItemIdents(raw: Json, defaultEntity: string, entityById: map<string, Entity>)
    requires IsIdent(defaultEntity)
    requires GroupItem(raw, defaultEntity, entityById).Ok? && GroupItem(raw, defaultEntity, entityById).value.Some?
    ensures var g := GroupItem(raw, defaultEntity, entityById).value.value;
            IsIdent(g.entity) && IsIdent(g.column)
  {
    var g := GroupItem(raw, defaultEntity, entityById).value.value;
    var item := Strip(TextOf(raw));
    if '.' !in item { IdentStripped(g.entity); }
    StrippedIdPattern(g.entity);
    StrippedIdPattern(g.column);
  }

  /** An identifier has no dot, so splitting at the first dot recovers both halves of a key. */
  lemma RefTextSplits(g: GroupRef)
    requires IsIdent(g.entity)
    ensures '.' in RefText(g) && SplitFirst(RefText(g), '.') == (g.entity, g.column)
  {
    assert '.' !in g.entity;
    assert RefText(g) == g.entity + ['.'] + g.column;
    assert RefText(g)[|g.entity|] == '.';
    SplitFirstUnique(g.entity, '.', g.column);
  }

  /** Looking a key up among the texts is looking its pair up. */
  lemma RefTextIn(refs: seq<GroupRef>, g: GroupRef)
    requires IsIdent(g.entity) && forall h | h in refs :: IsIdent(h.entity)
    ensures RefText(g) in Mapped(RefText, refs) <==> g in refs
  {
    MappedAt(RefText, refs);
    RefTextSplits(g);
    var texts := Mapped(RefText, refs);
    if RefText(g) in texts {
      var i :| 0 <= i < |texts| && texts[i] == RefText(g);
      RefTextSplits(refs[i]);
    }
    if g in refs {
      var i :| 0 <= i < |refs| && refs[i] == g;
      assert texts[i] == RefText(g);
    }
  }

  // ----- aliases -----

  /** The metric's entity, then every other grouped entity in order of first use. */
  function Involved(base: string, refs: seq<GroupRef>): (r: seq<string>)
    ensures r != []
  {
    Dedupe([base] + Mapped(RefEntity, refs))
  }

  function Alias(i: nat): string {
    "t" + Decimal(i)
  }

  /** {entity_id: f"t{idx}" for idx, entity_id in enumerate(involved)} */
  function Aliases(involved: seq<string>): map<string, string> {
    if involved == [] then map[]
    else Aliases(involved[..|involved| - 1])[involved[|involved| - 1] := Alias(|involved| - 1)]
  }

  lemma {:induction false} AliasesFacts(involved: seq<string>)
    requires forall i, j | 0 <= i < j < |involved| :: involved[i] != involved[j]
    ensures forall e :: e in Aliases(involved) <==> e in involved
    ensures forall i | 0 <= i < |involved| :: involved[i] in Aliases(involved) && Aliases(involved)[involved[i]] == Alias(i)
  {
    if involved != [] {
      var front, last := involved[..|involved| - 1], involved[|involved| - 1];
      AliasesFacts(front);
      InFront(involved);
      forall i | 0 <= i < |involved|
        ensures involved[i] in Aliases(involved) && Aliases(involved)[involved[i]] == Alias(i)
      {
        if i < |front| { assert front[i] == involved[i] && involved[i] != last; }
      }
    }
  }

  lemma InFront<T>(s: seq<T>)
    requires s != []
    ensures forall x :: x in s <==> x in s[..|s| - 1] || x == s[|s| - 1]
  {
    FrontMultiset(s);
  }

  lemma AliasInjective(i: nat, j: nat)
    requires Alias(i) == Alias(j)
    ensures i == j
  {
    assert Alias(i)[1..] == Decimal(i) && Alias(j)[1..] == Decimal(j);
    DecimalRoundTrip(i);
    DecimalRoundTrip(j);
  }

  // ----- clauses -----

  /** _build_metric_expression */
  function MetricExpression(m: Metric, alias: string): Result<Sql.Aggregate> {
    var aggregation, field := Lower(Strip(m.aggregation)), Strip(m.field);
    if aggregation !in AGGREGATIONS then Err("semantic_metric_aggregation_not_supported")
    else if field == "*" then
      if aggregation != "count" then Err("semantic_metric_field_invalid") else Ok(Sql.Aggregate("count", None))
    else if !MatchesIdPattern(field) then Err("semantic_metric_field_invalid")
    else Ok(Sql.Aggregate(aggregation, Some(Sql.Column(alias, field))))
  }

  function KindOf(joinType: string): Sql.JoinKind {
    match Lower(Strip(joinType))
    case "left" => Sql.LeftJoin
    case "right" => Sql.RightJoin
    case "full" => Sql.FullJoin
    case _ => Sql.InnerJoin
  }

  /** _build_join_clause; both ends of a join between base and target have aliases */
  function JoinClauseFor(base: string, target: string, joins: seq<Join>, aliases: map<string, string>)
    : Result<Sql.JoinClause>
    requires base in aliases && target in aliases
  {
    match FindJoinBetween(joins, base, target)
    case None => Err("semantic_join_path_missing")
    case Some(j) =>
      FoundJoinLinks(joins, base, target);
      if !MatchesIdPattern(j.leftKey) || !MatchesIdPattern(j.rightKey) then Err("semantic_join_key_invalid")
      else Ok(Sql.JoinClause(KindOf(j.joinType), target, aliases[target],
                             Sql.Column(aliases[j.leftEntity], j.leftKey), Sql.Column(aliases[j.rightEntity], j.rightKey)))
  }

  lemma {:induction false} FoundJoinLinks(joins: seq<Join>, left: string, right: string)
    ensures var j := FindJoinBetween(joins, left, right);
            j.Some? ==> j.value in joins && {j.value.leftEntity, j.value.rightEntity} == {left, right}
                        && j.value.leftEntity in {left, right} && j.value.rightEntity in {left, right}
  {
    if joins != [] && {joins[0].leftEntity, joins[0].rightEntity} != {left, right} {
      FoundJoinLinks(joins[1..], left, right);
    } else if joins != [] {
      assert joins[0].leftEntity in {joins[0].leftEntity, joins[0].rightEntity};
      assert joins[0].rightEntity in {joins[0].leftEntity, joins[0].rightEntity};
    }
  }

  function JoinClauses(base: string, targets: seq<string>, joins: seq<Join>, aliases: map<string, string>)
    : Result<seq<Sql.JoinClause>>
    requires base in aliases && forall e | e in targets :: e in aliases
  {
    if targets == [] then Ok([])
    else
      var front, last := targets[..|targets| - 1], targets[|targets| - 1];
      assert forall e | e in front :: e in targets;
      match JoinClauses(base, front, joins, aliases)
      case Err(e) => Err(e)
      case Ok(clauses) =>
        match JoinClauseFor(base, last, joins, aliases)
        case Err(e) => Err(e)
        case Ok(clause) => Ok(clauses + [clause])
  }

  function ColumnOf(aliases: map<string, string>, g: GroupRef): Sql.Column
    requires g.entity in aliases
  {
    Sql.Column(aliases[g.entity], g.column)
  }

  function Columns(aliases: map<string, string>, refs: seq<GroupRef>): (r: seq<Sql.Column>)
    requires forall g | g in refs :: g.entity in aliases
    ensures |r| == |refs|
    ensures forall i | 0 <= i < |refs| :: r[i] == ColumnOf(aliases, refs[i])
  {
    seq(|refs|, i requires 0 <= i < |refs| => ColumnOf(aliases, refs[i]))
  }

  /** One select item per grouped column, named entity__column. */
  function Items(aliases: map<string, string>, refs: seq<GroupRef>): (r: seq<Sql.SelectItem>)
    requires forall g | g in refs :: g.entity in aliases
    ensures |r| == |refs|
    ensures forall i | 0 <= i < |refs| ::
              r[i] == Sql.SelectItem(ColumnOf(aliases, refs[i]), refs[i].entity + "__" + refs[i].column)
  {
    seq(|refs|, i requires 0 <= i < |refs| =>
      Sql.SelectItem(ColumnOf(aliases, refs[i]), refs[i].entity + "__" + refs[i].column))
  }

  lemma InvolvedFacts(base: string, refs: seq<GroupRef>)
    ensures Involved(base, refs) != [] && Involved(base, refs)[0] == base
    ensures forall i, j | 0 <= i < j < |Involved(base, refs)| :: Involved(base, refs)[i] != Involved(base, refs)[j]
    ensures forall e :: e in Involved(base, refs) <==> e == base || exists g :: g in refs && g.entity == e
    ensures forall g | g in refs :: g.entity in Involved(base, refs)
  {
    var all := [base] + Mapped(RefEntity, refs);
    DedupeContents(all);
    MappedAt(RefEntity, refs);
    DedupeFirst(all);
    forall e ensures e in all <==> e == base || exists g :: g in refs && g.entity == e {
      if e in all && e != base {
        var i :| 0 <= i < |all| && all[i] == e;
        assert refs[i - 1] in refs && refs[i - 1].entity == e;
      }
      if g :| g in refs && g.entity == e {
        var i :| 0 <= i < |refs| && refs[i] == g;
        assert all[i + 1] == e;
      }
      assert all[0] == base;
    }
  }

  lemma {:induction false} DedupeFirst<T>(s: seq<T>)
    requires s != []
    ensures Dedupe(s) != [] && Dedupe(s)[0] == s[0]
  {
    if |s| > 1 { DedupeFirst(s[..|s| - 1]); }
  }

  /** The query for a metric grouped by refs. */
  function Compile(m: Manifest, metric: Metric, refs: seq<GroupRef>): Result<Sql.Select> {
    var involved := Involved(metric.entityId, refs);
    var aliases := Aliases(involved);
    InvolvedFacts(metric.entityId, refs);
    AliasesFacts(involved);
    match MetricExpression(metric, aliases[metric.entityId])
    case Err(e) => Err(e)
    case Ok(aggregate) =>
      match JoinClauses(metric.entityId, involved[1..], m.joins, aliases)
      case Err(e) => Err(e)
      case Ok(joins) =>
        Ok(Sql.Select(Items(aliases, refs), aggregate, metric.entityId, aliases[metric.entityId], joins,
                      Columns(aliases, refs)))
  }

  /** sorted({dataset of e for e involved}), blank datasets dropped */
  function DatasetsOf(entityById: map<string, Entity>, involved: seq<string>): seq<string> {
    if involved == [] then []
    else
      var front, e := DatasetsOf(entityById, involved[..|involved| - 1]), involved[|involved| - 1];
      if e in entityById && Strip(entityById[e].datasetId) != "" then front + [entityById[e].datasetId] else front
  }

  // ----- the whole binding -----

  /** The part of the binding after metric and manifest are known. */
  function BoundTo(m: Manifest, metric: Metric, groupByRaw: Json, checksum: string): Result<Binding> {
    if metric.entityId !in EntityById(m.entities) then Err("semantic_metric_entity_missing")
    else match GroupByOf(groupByRaw, metric.entityId, EntityById(m.entities))
      case Err(e) => Err(e)
      case Ok(refs) =>
        match Compile(m, metric, refs)
        case Err(e) => Err(e)
        case Ok(select) =>
          var datasets := SortedSet(DatasetsOf(EntityById(m.entities), Involved(metric.entityId, refs)));
          if datasets == [] then Err("semantic_dataset_binding_missing")
          else Ok(Binding(Sql.SelectText(select), datasets, metric.id, Mapped(RefText, refs), checksum))
  }

  /** What bind_semantic_query returns or raises; state is the stored payload of the active manifest row. */
  function Bound(state: Option<map<string, Json>>, workspaceId: string, query: map<string, Json>,
                 checksumOf: Manifest -> string): Result<Binding>
  {
    var metricId := Strip(TextOf(Get(query, "metric_id", Str(""))));
    if metricId == "" then Err("semantic_metric_required")
    else if !MatchesIdPattern(metricId) then Err("semantic_metric_invalid")
    else if state.None? || !Get(state.value, "manifest", Null).Object? then Err("semantic_manifest_not_configured")
    else match Validated(Get(state.value, "manifest", Null).fields, Some(workspaceId))
      case Err(_) => Err("semantic_manifest_invalid")
      case Ok(m) =>
        var stored := Strip(TextOf(Get(state.value, "manifest_checksum", Str(""))));
        match FindMetric(m.metrics, metricId)
        case None => Err("semantic_metric_not_found")
        case Some(metric) =>
          BoundTo(m, metric, Get(query, "group_by", List([], "[]")), if stored == "" then checksumOf(m) else stored)
  }

  /** The loop that collects the involved entities from the group_by keys. */
  method InvolvedEntities(base: string, groupBy: seq<string>, ghost refs: seq<GroupRef>) returns (involved: seq<string>)
    requires groupBy == Mapped(RefText, refs) && forall g | g in refs :: IsIdent(g.entity)
    ensures involved == Involved(base, refs)
  {
    involved := [base];
    MappedAt(RefText, refs);
    NoRefsInvolved(base, refs);
    for i := 0 to |groupBy|
      invariant involved == Involved(base, refs[..i])
    {
      RefTextSplits(refs[i]);
      var entity := SplitFirst(groupBy[i], '.').0;
      InvolvedNext(base, refs, i);
      if entity !in involved {
        involved := involved + [entity];
      }
    }
    assert refs[..|refs|] == refs;
  }

  lemma NoRefsInvolved(base: string, refs: seq<GroupRef>)
    ensures Involved(base, refs[..0]) == [base]
  {
    assert refs[..0] == [];
    assert [base] + Mapped(RefEntity, []) == [base];
    assert [base][..0] == [];
    assert Dedupe([base]) == [base];
  }

  lemma InvolvedNext(base: string, refs: seq<GroupRef>, i: nat)
    requires i < |refs|
    ensures var so := Involved(base, refs[..i]);
            Involved(base, refs[..i + 1]) == if refs[i].entity in so then so else so + [refs[i].entity]
  {
    assert refs[..i + 1][..i] == refs[..i];
    assert ([base] + Mapped(RefEntity, refs[..i + 1]))[..i + 1] == [base] + Mapped(RefEntity, refs[..i]);
  }

  lemma GroupTextAt(aliases: map<string, string>, refs: seq<GroupRef>, i: nat)
    requires i < |refs| && forall g | g in refs :: IsIdent(g.entity) && g.entity in aliases
    ensures '.' in RefText(refs[i])
    ensures var (entity, column) := SplitFirst(RefText(refs[i]), '.');
            && entity in aliases
            && aliases[entity] + "." + column + " as " + (entity + "__" + column) == Sql.ItemText(Items(aliases, refs)[i])
            && aliases[entity] + "." + column == Sql.ColumnText(Columns(aliases, refs)[i])
  {
    RefTextSplits(refs[i]);
  }

  /** The binding once the metric is found. */
  method BindMetric(m: Manifest, metric: Metric, groupByRaw: Json, checksum: string) returns (r: Result<Binding>)
    requires NormalForm(m) && metric in m.metrics
    ensures r == BoundTo(m, metric, groupByRaw, checksum)
  {
    var entityById := EntityById(m.entities);
    if metric.entityId !in entityById { return Err("semantic_metric_entity_missing"); }
    var groupBy := ParseGroupBy(groupByRaw, metric.entityId, entityById);
    if groupBy.Err? { return Err(groupBy.error); }
    ghost var refs := GroupByOf(groupByRaw, metric.entityId, entityById).value;
    GroupRefsIdents(groupByRaw.items, metric.entityId, entityById);

    var involved := InvolvedEntities(metric.entityId, groupBy.value, refs);
    InvolvedFacts(metric.entityId, refs);
    AliasesFacts(involved);
    var aliases := Aliases(involved);
    var selectParts, groupByExpressions := GroupTexts(aliases, groupBy.value, refs);
    var metricSql := MetricExpression(metric, aliases[metric.entityId]);
    if metricSql.Err? { return Err(metricSql.error); }
    selectParts := selectParts + [Sql.AggregateText(metricSql.value) + " as metric_value"];
    var joinClauses := JoinClauses(metric.entityId, involved[1..], m.joins, aliases);
    if joinClauses.Err? { return Err(joinClauses.error); }
    var groupClause := if groupByExpressions == [] then "" else " group by " + JoinWith(", ", groupByExpressions);
    var sqlText := "select " + JoinWith(", ", selectParts) + " "
                   + "from gold." + metric.entityId + " as " + aliases[metric.entityId]
                   + (if joinClauses.value != [] then " " + JoinWith(" ", Mapped(Sql.JoinText, joinClauses.value)) else "")
                   + groupClause;
    var datasetIds := SortedSet(DatasetsOf(entityById, involved));
    if datasetIds == [] { return Err("semantic_dataset_binding_missing"); }
    r := Ok(Binding(sqlText, datasetIds, metric.id, groupBy.value, checksum));
  }

  /** The loop that writes the grouped columns twice: as select items and as group_by expressions. */
  method GroupTexts(aliases: map<string, string>, groupBy: seq<string>, ghost refs: seq<GroupRef>)
    returns (selectParts: seq<string>, groupByExpressions: seq<string>)
    requires groupBy == Mapped(RefText, refs) && forall g | g in refs :: IsIdent(g.entity) && g.entity in aliases
    ensures selectParts == Mapped(Sql.ItemText, Items(aliases, refs))
    ensures groupByExpressions == Mapped(Sql.ColumnText, Columns(aliases, refs))
  {
    selectParts, groupByExpressions := [], [];
    ghost var items, columns := Items(aliases, refs), Columns(aliases, refs);
    MappedAt(RefText, refs);
    for i := 0 to |groupBy|
      invariant selectParts == Mapped(Sql.ItemText, items[..i])
      invariant groupByExpressions == Mapped(Sql.ColumnText, columns[..i])
    {
      MappedNext(Sql.ItemText, items, i);
      MappedNext(Sql.ColumnText, columns, i);
      GroupTextAt(aliases, refs, i);
      var (entity, column) := SplitFirst(groupBy[i], '.');
      var alias := aliases[entity];
      selectParts := selectParts + [alias + "." + column + " as " + (entity + "__" + column)];
      groupByExpressions := groupByExpressions + [alias + "." + column];
    }
    assert items[..|groupBy|] == items && columns[..|groupBy|] == columns;
  }

  method BindSemanticQuery(state: Option<map<string, Json>>, workspaceId: string, query: map<string, Json>,
                           checksumOf: Manifest -> string) returns (r: Result<Binding>)
    ensures r == Bound(state, workspaceId, query, checksumOf)
  {
    var metricId := Strip(TextOf(Get(query, "metric_id", Str(""))));
    if metricId == "" { return Err("semantic_metric_required"); }
    if !MatchesIdPattern(metricId) { return Err("semantic_metric_invalid"); }
    if state.None? { return Err("semantic_manifest_not_configured"); }
    var manifestRaw := Get(state.value, "manifest", Null);
    if !manifestRaw.Object? { return Err("semantic_manifest_not_configured"); }
    var validated := ValidateSemanticManifest(manifestRaw.fields, Some(workspaceId));
    if validated.Err? { return Err("semantic_manifest_invalid"); }
    var m := validated.value;
    ValidatedIsNormal(manifestRaw.fields, Some(workspaceId));
    var found := FindMetric(m.metrics, metricId);
    if found.None? { return Err("semantic_metric_not_found"); }
    FoundMetric(m.metrics, metricId);
    var checksum := Strip(TextOf(Get(state.value, "manifest_checksum", Str(""))));
    if checksum == "" { checksum := checksumOf(m); }
    r := BindMetric(m, found.value, Get(query, "group_by", List([], "[]")), checksum);
  }

  lemma {:induction false} FoundMetric(metrics: seq<Metric>, id: string)
    ensures FindMetric(metrics, id).Some? ==>
              FindMetric(metrics, id).value in metrics && FindMetric(metrics, id).value.id == id
  {
    if metrics != [] && metrics[0].id != id { FoundMetric(metrics[1..], id); }
  }

  lemma {:induction false} GroupRefsIdents(items: seq<Json>, defaultEntity: string, entityById: map<string, Entity>)
    requires IsIdent(defaultEntity) && GroupRefs(items, defaultEntity, entityById).Ok?
    ensures forall g | g in GroupRefs(items, defaultEntity, entityById).value :: IsIdent(g.entity) && IsIdent(g.column)
  {
    if items != [] {
      GroupRefsIdents(items[..|items| - 1], defaultEntity, entityById);
      var last := items[|items| - 1];
      if GroupItem(last, defaultEntity, entityById).value.Some? {
        GroupItemIdents(last, defaultEntity, entityById);
      }
    }
  }
}
