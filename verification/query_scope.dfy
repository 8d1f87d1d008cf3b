/** When a semantic query binds, what the emitted query refers to, and which datasets it reads. */
module QueryScope {
  import opened Sequences
  import opened Text
  import opened Semantic
  import opened SemanticBinding
  import StarJoin
  import Sql

  // ----- lookups -----

  lemma {:induction false} JoinFoundIff(joins: seq<Join>, a: string, b: string)
    ensures FindJoinBetween(joins, a, b).Some? <==> exists j :: j in joins && {j.leftEntity, j.rightEntity} == {a, b}
  {
    if joins != [] {
      JoinFoundIff(joins[1..], a, b);
      assert joins[0] in joins && forall j :: j in joins <==> j == joins[0] || j in joins[1..];
    }
  }

  /** Listing a join as (a, b) or as (b, a) makes no difference to which join is used. */
  lemma {:induction false} JoinLookupSymmetric(joins: seq<Join>, a: string, b: string)
    ensures FindJoinBetween(joins, a, b) == FindJoinBetween(joins, b, a)
  {
    assert {a, b} == {b, a};
    if joins != [] { JoinLookupSymmetric(joins[1..], a, b); }
  }

  lemma {:induction false} EntityByIdKeys(es: seq<Entity>)
    ensures EntityById(es).Keys == EntityIds(es)
  {
    if es != [] {
      EntityByIdKeys(es[..|es| - 1]);
      EntityIdsSplit(es);
    }
  }

  lemma {:induction false} EntityByIdAt(es: seq<Entity>, i: nat)
    requires i < |es| && forall a, b | 0 <= a < b < |es| :: es[a].id != es[b].id
    ensures es[i].id in EntityById(es) && EntityById(es)[es[i].id] == es[i]
  {
    if i < |es| - 1 {
      assert es[i].id != es[|es| - 1].id;
      EntityByIdAt(es[..|es| - 1], i);
    }
  }

  lemma EntityIdsSplit(es: seq<Entity>)
    requires es != []
    ensures EntityIds(es) == EntityIds(es[..|es| - 1]) + {es[|es| - 1].id}
  {
    var front, last := es[..|es| - 1], es[|es| - 1];
    assert forall e :: e in es <==> e in front || e == last by { FrontMultiset(es); }
  }

  lemma NormalEntities(m: Manifest)
    requires NormalForm(m)
    ensures EntityById(m.entities).Keys == EntityIds(m.entities)
    ensures forall e | e in m.entities :: e.id in EntityById(m.entities) && EntityById(m.entities)[e.id] == e
    ensures forall id | id in EntityById(m.entities) ::
              EntityById(m.entities)[id] in m.entities && EntityById(m.entities)[id].id == id
  {
    forall i, j | 0 <= i < j < |m.entities| ensures m.entities[i].id != m.entities[j].id {
      LessAsymmetric(EntityId(m.entities[i]), EntityId(m.entities[j]));
    }
    EntityByIdKeys(m.entities);
    forall e | e in m.entities ensures e.id in EntityById(m.entities) && EntityById(m.entities)[e.id] == e {
      var i :| 0 <= i < |m.entities| && m.entities[i] == e;
      EntityByIdAt(m.entities, i);
    }
  }

  // ----- when a query compiles -----

  ghost predicate AllLinked(joins: seq<Join>, base: string, targets: seq<string>) {
    forall e | e in targets :: FindJoinBetween(joins, base, e).Some?
  }

  lemma {:induction false} ClausesExistIff(m: Manifest, base: string, targets: seq<string>, aliases: map<string, string>)
    requires NormalForm(m) && base in aliases && forall e | e in targets :: e in aliases
    ensures JoinClauses(base, targets, m.joins, aliases).Ok? <==> AllLinked(m.joins, base, targets)
    ensures JoinClauses(base, targets, m.joins, aliases).Err? ==>
              JoinClauses(base, targets, m.joins, aliases) == Err("semantic_join_path_missing")
  {
    if targets != [] {
      ClausesExistIff(m, base, targets[..|targets| - 1], aliases);
      LinkedFront(m.joins, base, targets);
      FoundJoinLinks(m.joins, base, targets[|targets| - 1]);
    }
  }

  lemma LinkedFront(joins: seq<Join>, base: string, targets: seq<string>)
    requires targets != []
    ensures AllLinked(joins, base, targets) <==>
              AllLinked(joins, base, targets[..|targets| - 1]) && FindJoinBetween(joins, base, targets[|targets| - 1]).Some?
  {
    FrontMultiset(targets);
    assert forall x :: x in targets <==> x in targets[..|targets| - 1] || x == targets[|targets| - 1];
  }

  /** A metric grouped by refs compiles exactly when a join is listed between the metric's entity and every other
      involved entity; the only way to fail is a missing join path. */
  lemma CompilesIff(m: Manifest, metric: Metric, refs: seq<GroupRef>)
    requires NormalForm(m) && metric in m.metrics
    ensures Compile(m, metric, refs).Ok? <==>
              forall g | g in refs && g.entity != metric.entityId ::
                Links(m.joins, metric.entityId, g.entity)
    ensures Compile(m, metric, refs).Err? ==> Compile(m, metric, refs) == Err("semantic_join_path_missing")
  {
    var base := metric.entityId;
    var involved := Involved(base, refs);
    StarJoin.InvolvedScope(base, refs, involved);
    StarJoin.InvolvedOthers(base, refs, involved);
    StarJoin.NormalMetricExpression(metric, EntityIds(m.entities), Aliases(involved)[base]);
    ClausesExistIff(m, base, involved[1..], Aliases(involved));
    LinkedIff(m.joins, base, refs, involved);
  }

  ghost predicate Links(joins: seq<Join>, a: string, b: string) {
    exists j :: j in joins && {j.leftEntity, j.rightEntity} == {a, b}
  }

  lemma LinkedIff(joins: seq<Join>, base: string, refs: seq<GroupRef>, involved: seq<string>)
    requires involved == Involved(base, refs)
    ensures AllLinked(joins, base, involved[1..]) <==> forall g | g in refs && g.entity != base :: Links(joins, base, g.entity)
  {
    forall e ensures FindJoinBetween(joins, base, e).Some? <==> Links(joins, base, e) { JoinFoundIff(joins, base, e); }
    OtherEntities(base, refs, involved);
  }

  /** The others are the grouped entities apart from the metric's. */
  lemma OtherEntities(base: string, refs: seq<GroupRef>, involved: seq<string>)
    requires involved == Involved(base, refs)
    ensures forall e :: e in involved[1..] <==> e != base && exists g :: g in refs && g.entity == e
  {
    InvolvedFacts(base, refs);
    StarJoin.OthersDistinct(base, refs, involved);
    forall e ensures e in involved[1..] <==> e != base && exists g :: g in refs && g.entity == e {
      assert e in involved <==> e == base || e in involved[1..];
    }
  }

  // ----- references resolve -----

  /** Every reference of an accepted group_by list names an entity of the manifest and one of its columns. */
  ghost predicate RefsResolve(m: Manifest, refs: seq<GroupRef>) {
    forall g | g in refs :: RefResolves(m, g)
  }

  ghost predicate RefResolves(m: Manifest, g: GroupRef) {
    && IsIdent(g.entity) && IsIdent(g.column)
    && exists e :: e in m.entities && e.id == g.entity && (g.column == e.primaryKey || g.column in e.attributes)
  }

  lemma ItemResolves(m: Manifest, raw: Json, base: string)
    requires NormalForm(m) && IsIdent(base) && GroupItem(raw, base, EntityById(m.entities)).Ok?
    requires GroupItem(raw, base, EntityById(m.entities)).value.Some?
    ensures RefResolves(m, GroupItem(raw, base, EntityById(m.entities)).value.value)
  {
    NormalEntities(m);
    GroupItemIdents(raw, base, EntityById(m.entities));
    var g := GroupItem(raw, base, EntityById(m.entities)).value.value;
    assert EntityById(m.entities)[g.entity] in m.entities;
  }

  lemma {:induction false} GroupByResolves(m: Manifest, items: seq<Json>, base: string)
    requires NormalForm(m) && IsIdent(base) && GroupRefs(items, base, EntityById(m.entities)).Ok?
    ensures RefsResolve(m, GroupRefs(items, base, EntityById(m.entities)).value)
    ensures var refs := GroupRefs(items, base, EntityById(m.entities)).value;
            forall i, j | 0 <= i < j < |refs| :: refs[i] != refs[j]
  {
    if items != [] {
      GroupByResolves(m, items[..|items| - 1], base);
      var last := items[|items| - 1];
      if GroupItem(last, base, EntityById(m.entities)).value.Some? { ItemResolves(m, last, base); }
    }
  }

  // ----- scoping -----

  /** The aliases a query introduces: the FROM table first, then one per join. */
  function BoundAliases(s: Sql.Select): seq<string> {
    [s.alias] + Mapped(AliasOfClause, s.joins)
  }

  function AliasOfClause(j: Sql.JoinClause): string { j.alias }

  function ColumnOfItem(i: Sql.SelectItem): Sql.Column { i.column }

  lemma ClauseAliases(joins: seq<Join>, base: string, others: seq<string>, clauses: seq<Sql.JoinClause>, k: nat)
    requires StarJoin.ClausesFor(joins, base, others, clauses) && k < |others|
    ensures |Mapped(AliasOfClause, clauses)| == |others| && Mapped(AliasOfClause, clauses)[k] == Alias(k + 1)
  {
    MappedAt(AliasOfClause, clauses);
    StarJoin.ClauseAt(joins, base, others, clauses, k);
  }

  lemma BoundAliasAt(m: Manifest, metric: Metric, refs: seq<GroupRef>, s: Sql.Select, k: nat)
    requires NormalForm(m) && metric in m.metrics && Compile(m, metric, refs) == Ok(s)
    requires k < |Involved(metric.entityId, refs)|
    ensures |BoundAliases(s)| == |Involved(metric.entityId, refs)| && BoundAliases(s)[k] == Alias(k)
  {
    var others := Involved(metric.entityId, refs)[1..];
    StarJoin.CompiledParts(m, metric, refs, s);
    BoundAliasIs(m.joins, metric.entityId, others, s, k);
  }

  lemma BoundAliasIs(joins: seq<Join>, base: string, others: seq<string>, s: Sql.Select, k: nat)
    requires StarJoin.ClausesFor(joins, base, others, s.joins) && s.alias == Alias(0) && k <= |others|
    ensures |BoundAliases(s)| == |others| + 1 && BoundAliases(s)[k] == Alias(k)
  {
    assert |Mapped(AliasOfClause, s.joins)| == |others|;
    if k > 0 {
      ClauseAliases(joins, base, others, s.joins, k - 1);
      assert BoundAliases(s)[k] == Mapped(AliasOfClause, s.joins)[k - 1];
    }
  }

  /** Every alias is bound exactly once. */
  lemma AliasesBoundOnce(m: Manifest, metric: Metric, refs: seq<GroupRef>, s: Sql.Select, i: nat, j: nat)
    requires NormalForm(m) && metric in m.metrics && Compile(m, metric, refs) == Ok(s)
    requires i < j < |BoundAliases(s)|
    ensures BoundAliases(s)[i] != BoundAliases(s)[j]
  {
    InvolvedFacts(metric.entityId, refs);
    BoundAliasAt(m, metric, refs, s, 0);
    BoundAliasAt(m, metric, refs, s, i);
    BoundAliasAt(m, metric, refs, s, j);
    if Alias(i) == Alias(j) { AliasInjective(i, j); }
  }

  /** Every selected and grouped column uses a bound alias. */
  lemma ColumnsUseBoundAliases(m: Manifest, metric: Metric, refs: seq<GroupRef>, s: Sql.Select, k: nat)
    requires NormalForm(m) && metric in m.metrics && Compile(m, metric, refs) == Ok(s) && k < |s.items|
    ensures s.items[k].column.alias in BoundAliases(s)
  {
    StarJoin.CompiledParts(m, metric, refs, s);
    var n := RefPosition(metric.entityId, refs, k);
    BoundAliasAt(m, metric, refs, s, n);
  }

  /** A grouped entity is among the involved ones, and its alias is that of its position. */
  lemma RefPosition(base: string, refs: seq<GroupRef>, k: nat) returns (n: nat)
    requires k < |refs|
    ensures n < |Involved(base, refs)| && refs[k].entity in Aliases(Involved(base, refs))
    ensures Aliases(Involved(base, refs))[refs[k].entity] == Alias(n)
  {
    var involved := Involved(base, refs);
    InvolvedFacts(base, refs);
    AliasesFacts(involved);
    n :| 0 <= n < |involved| && involved[n] == refs[k].entity;
  }

  /** The k-th join brings in the k-th other entity, and its ON condition relates that entity to the metric's. */
  lemma JoinIsScoped(m: Manifest, metric: Metric, refs: seq<GroupRef>, s: Sql.Select, k: nat)
    requires NormalForm(m) && metric in m.metrics && Compile(m, metric, refs) == Ok(s) && k < |s.joins|
    ensures {s.joins[k].left.alias, s.joins[k].right.alias} == {s.alias, s.joins[k].alias}
    ensures |s.joins| == |Involved(metric.entityId, refs)| - 1
    ensures s.joins[k].table == Involved(metric.entityId, refs)[k + 1]
  {
    StarJoin.CompiledParts(m, metric, refs, s);
    StarJoin.ClauseAt(m.joins, metric.entityId, Involved(metric.entityId, refs)[1..], s.joins, k);
  }

  /** GROUP BY lists exactly the select items that are not the metric. */
  lemma GroupByMatchesItems(m: Manifest, metric: Metric, refs: seq<GroupRef>, s: Sql.Select)
    requires NormalForm(m) && metric in m.metrics && Compile(m, metric, refs) == Ok(s)
    ensures s.groupBy == Mapped(ColumnOfItem, s.items)
  {
    StarJoin.CompiledParts(m, metric, refs, s);
    MappedAt(ColumnOfItem, s.items);
  }

  // ----- datasets -----

  lemma {:induction false} DatasetsOfFacts(byId: map<string, Entity>, involved: seq<string>)
    requires forall e | e in involved :: e in byId && Strip(byId[e].datasetId) != ""
    ensures forall d :: d in DatasetsOf(byId, involved) <==> exists e :: e in involved && byId[e].datasetId == d
  {
    if involved != [] {
      var front, last := involved[..|involved| - 1], involved[|involved| - 1];
      assert forall e | e in front :: e in involved;
      assert last in involved;
      DatasetsOfFacts(byId, front);
      FrontMultiset(involved);
      assert forall e :: e in involved <==> e in front || e == last;
    }
  }

  /** dataset_ids lists, sorted and once each, exactly the datasets of the involved entities; it is never empty. */
  lemma DatasetsAreThoseInvolved(m: Manifest, metric: Metric, refs: seq<GroupRef>)
    requires NormalForm(m) && metric in m.metrics && RefsResolve(m, refs)
    ensures var datasets := SortedSet(DatasetsOf(EntityById(m.entities), Involved(metric.entityId, refs)));
            && StrictlySorted(Itself, datasets) && datasets != []
            && forall d :: d in datasets <==>
                 exists e :: e in m.entities && e.id in Involved(metric.entityId, refs) && e.datasetId == d
  {
    var byId, involved := EntityById(m.entities), Involved(metric.entityId, refs);
    NormalEntities(m);
    InvolvedFacts(metric.entityId, refs);
    forall e | e in involved ensures e in byId && Strip(byId[e].datasetId) != "" {
      if e != metric.entityId {
        var g :| g in refs && g.entity == e;
        assert RefResolves(m, g);
      }
      StripFixed(byId[e].datasetId);
    }
    DatasetsOfFacts(byId, involved);
    SortedSetFacts(DatasetsOf(byId, involved));
    forall e | e in m.entities && e.id in involved ensures byId[e.id] == e {}
    forall e | e in involved ensures byId[e] in m.entities && byId[e].id == e {}
    assert metric.entityId in involved;
    assert byId[metric.entityId].datasetId in DatasetsOf(byId, involved);
  }

  // ----- the whole binding -----

  const BINDING_ERRORS := {
    "semantic_metric_required", "semantic_metric_invalid", "semantic_manifest_not_configured",
    "semantic_manifest_invalid", "semantic_metric_not_found", "semantic_group_by_invalid",
    "semantic_group_by_entity_not_found", "semantic_group_by_column_not_found", "semantic_join_path_missing"
  }

  lemma {:induction false} GroupByErrors(items: seq<Json>, base: string, byId: map<string, Entity>)
    ensures GroupRefs(items, base, byId).Err? ==> GroupRefs(items, base, byId).error in BINDING_ERRORS
  {
    if items != [] { GroupByErrors(items[..|items| - 1], base, byId); }
  }

  /** What a successful binding to a metric consists of. */
  ghost predicate BindsTo(m: Manifest, metric: Metric, groupByRaw: Json, b: Binding, refs: seq<GroupRef>,
                          select: Sql.Select) {
    && GroupByOf(groupByRaw, metric.entityId, EntityById(m.entities)) == Ok(refs) && RefsResolve(m, refs)
    && Compile(m, metric, refs) == Ok(select) && b.sqlText == Sql.SelectText(select)
    && b.groupBy == Mapped(RefText, refs) && b.metricId == metric.id
  }

  lemma BoundToMeans(m: Manifest, metric: Metric, groupByRaw: Json, checksum: string)
    requires NormalForm(m) && metric in m.metrics
    ensures BoundTo(m, metric, groupByRaw, checksum).Err? ==>
              BoundTo(m, metric, groupByRaw, checksum).error in BINDING_ERRORS
    ensures BoundTo(m, metric, groupByRaw, checksum).Ok? ==>
              exists refs, select :: BindsTo(m, metric, groupByRaw, BoundTo(m, metric, groupByRaw, checksum).value, refs, select)
  {
    NormalEntities(m);
    if groupByRaw.List? {
      GroupByErrors(groupByRaw.items, metric.entityId, EntityById(m.entities));
      if GroupRefs(groupByRaw.items, metric.entityId, EntityById(m.entities)).Ok? {
        var refs := GroupRefs(groupByRaw.items, metric.entityId, EntityById(m.entities)).value;
        GroupByResolves(m, groupByRaw.items, metric.entityId);
        CompilesIff(m, metric, refs);
        DatasetsAreThoseInvolved(m, metric, refs);
        if Compile(m, metric, refs).Ok? {
          assert BindsTo(m, metric, groupByRaw, BoundTo(m, metric, groupByRaw, checksum).value, refs,
                         Compile(m, metric, refs).value);
        }
      }
    }
  }

  /** A binding that succeeds is the text of a query compiled from a validated manifest; one that fails does so with
      one of nine codes: an unresolved metric entity, an unusable join key and an empty dataset list cannot occur. */
  lemma BoundMeans(state: Option<map<string, Json>>, workspaceId: string, query: map<string, Json>,
                   checksumOf: Manifest -> string)
    ensures Bound(state, workspaceId, query, checksumOf).Err? ==>
              Bound(state, workspaceId, query, checksumOf).error in BINDING_ERRORS
    ensures Bound(state, workspaceId, query, checksumOf).Ok? ==>
              exists m, metric, refs, select ::
                && NormalForm(m) && m.workspaceId == workspaceId && metric in m.metrics
                && BindsTo(m, metric, Get(query, "group_by", List([], "[]")),
                           Bound(state, workspaceId, query, checksumOf).value, refs, select)
  {
    if !FailsEarly(state, workspaceId, query, checksumOf) {
      var m, metric, checksum := BoundVia(state, workspaceId, query, checksumOf);
      BoundToMeans(m, metric, Get(query, "group_by", List([], "[]")), checksum);
    }
  }

  /** The binding fails before it comes to a metric. */
  ghost predicate FailsEarly(state: Option<map<string, Json>>, workspaceId: string, query: map<string, Json>,
                             checksumOf: Manifest -> string) {
    && Bound(state, workspaceId, query, checksumOf).Err?
    && Bound(state, workspaceId, query, checksumOf).error in BINDING_ERRORS
  }

  /** Otherwise it is the binding to a metric of a validated manifest of the workspace. */
  lemma BoundVia(state: Option<map<string, Json>>, workspaceId: string, query: map<string, Json>,
                 checksumOf: Manifest -> string)
    returns (m: Manifest, metric: Metric, checksum: string)
    requires !FailsEarly(state, workspaceId, query, checksumOf)
    ensures NormalForm(m) && m.workspaceId == workspaceId && metric in m.metrics
    ensures Bound(state, workspaceId, query, checksumOf)
         == BoundTo(m, metric, Get(query, "group_by", List([], "[]")), checksum)
  {
    var metricId := Strip(TextOf(Get(query, "metric_id", Str(""))));
    var fields := Get(state.value, "manifest", Null).fields;
    m := Validated(fields, Some(workspaceId)).value;
    ValidatedIsNormal(fields, Some(workspaceId));
    FoundMetric(m.metrics, metricId);
    metric := FindMetric(m.metrics, metricId).value;
    var stored := Strip(TextOf(Get(state.value, "manifest_checksum", Str(""))));
    checksum := if stored == "" then checksumOf(m) else stored;
  }
}
