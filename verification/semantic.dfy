/** backend/shared_domain/semantic.py: the semantic manifest and its normal form. */
module Semantic {
  import opened Sequences
  import opened Text

  // ----- JSON values; numbers, lists and objects carry the text Python's str() gives them -----

  datatype Json =
    | Null
    | Bool(b: bool)
    | Number(zero: bool, text: string)
    | Str(s: string)
    | List(items: seq<Json>, text: string)
    | Object(fields: map<string, Json>, text: string)

  /** str(value) */
  function TextOf(v: Json): string {
    match v
    case Null => "None"
    case Bool(b) => if b then "True" else "False"
    case Number(_, text) => text
    case Str(s) => s
    case List(_, text) => text
    case Object(_, text) => text
  }

  /** not value */
  predicate Falsy(v: Json) {
    match v
    case Null => true
    case Bool(b) => !b
    case Number(zero, _) => zero
    case Str(s) => s == ""
    case List(items, _) => items == []
    case Object(fields, _) => fields == map[]
  }

  /** fields.get(name, default) */
  function Get(fields: map<string, Json>, name: string, default: Json): Json {
    if name in fields then fields[name] else default
  }

  // ----- normalized manifests -----

  datatype Entity = Entity(id: string, datasetId: string, primaryKey: string, attributes: seq<string>)
  datatype Metric = Metric(id: string, entityId: string, aggregation: string, field: string, expression: string)
  datatype Join = Join(id: string, leftEntity: string, rightEntity: string, leftKey: string, rightKey: string,
                       joinType: string)
  datatype Manifest = Manifest(workspaceId: string, entities: seq<Entity>, metrics: seq<Metric>, joins: seq<Join>)

  const AGGREGATIONS := {"sum", "count", "avg", "min", "max"}
  const JOIN_TYPES := {"inner", "left", "right", "full"}

  function EntityId(e: Entity): string { e.id }
  function MetricId(m: Metric): string { m.id }
  function JoinId(j: Join): string { j.id }

  function EntityIds(es: seq<Entity>): set<string> {
    set e | e in es :: e.id
  }

  // ----- one row at a time -----

  /** _normalized_id */
  function NormalizedId(v: Json, field: string): Result<string> {
    var text := Strip(if Falsy(v) then "" else TextOf(v));
    if text == "" then Err("missing_" + field)
    else if !MatchesIdPattern(text) then Err("invalid_" + field)
    else Ok(text)
  }

  /** _normalized_id on every item, stopping at the first failure */
  function NormalizedIds(items: seq<Json>, field: string): Result<seq<string>> {
    if items == [] then Ok([])
    else match NormalizedIds(items[..|items| - 1], field)
      case Err(e) => Err(e)
      case Ok(front) =>
        match NormalizedId(items[|items| - 1], field)
        case Err(e) => Err(e)
        case Ok(id) => Ok(front + [id])
  }

  /** One turn of the loop in _normalize_entities. */
  function EntityRow(index: nat, row: Json, seen: set<string>): Result<Entity> {
    if !row.Object? then Err("invalid_entity_row")
    else match NormalizedId(Get(row.fields, "entity_id", Null), "entity_id")
      case Err(e) => Err(e)
      case Ok(id) =>
        if id in seen then Err("duplicate_entity_id")
        else
          var datasetId := Strip(TextOf(Get(row.fields, "dataset_id", Str(""))));
          if datasetId == "" then Err("missing_entity_dataset_id")
          else match NormalizedId(Get(row.fields, "primary_key", Null), "primary_key")
            case Err(e) => Err(e)
            case Ok(primaryKey) =>
              var attributes := Get(row.fields, "attributes", List([], "[]"));
              if !attributes.List? then Err("invalid_entity_attributes")
              else match NormalizedIds(attributes.items, "attribute")
                case Err(e) => Err(e)
                case Ok(names) => Ok(Entity(id, datasetId, primaryKey, SortedSet(names)))
  }

  /** One turn of the loop in _normalize_metrics. */
  function MetricRow(entityIds: set<string>, index: nat, row: Json, seen: set<string>): Result<Metric> {
    if !row.Object? then Err("invalid_metric_row")
    else match NormalizedId(Get(row.fields, "metric_id", Null), "metric_id")
      case Err(e) => Err(e)
      case Ok(id) =>
        if id in seen then Err("duplicate_metric_id")
        else match NormalizedId(Get(row.fields, "entity_id", Null), "metric_entity_id")
          case Err(e) => Err(e)
          case Ok(entityId) =>
            if entityId !in entityIds then Err("metric_entity_not_found")
            else
              var aggregation := Lower(Strip(TextOf(Get(row.fields, "aggregation", Str("")))));
              if aggregation !in AGGREGATIONS then Err("invalid_metric_aggregation")
              else match NormalizedId(Get(row.fields, "field", Null), "metric_field")
                case Err(e) => Err(e)
                case Ok(field) =>
                  var given := Strip(TextOf(Get(row.fields, "expression", Str(""))));
                  var expression := if given == "" then aggregation + "(" + field + ")" else given;
                  Ok(Metric(id, entityId, aggregation, field, expression))
  }

  /** The join id a row asks for, "" when it asks for none. */
  function AskedJoinId(row: Json): string
    requires row.Object?
  {
    Strip(TextOf(Get(row.fields, "join_id", Str(""))))
  }

  /** One turn of the loop in _normalize_joins. */
  function JoinRow(entityIds: set<string>, index: nat, row: Json, seen: set<string>): Result<Join> {
    if !row.Object? then Err("invalid_join_row")
    else
      var asked := AskedJoinId(row);
      match NormalizedId(Str(if asked == "" then "join_" + Decimal(index + 1) else asked), "join_id")
      case Err(e) => Err(e)
      case Ok(id) =>
        if id in seen then Err("duplicate_join_id")
        else match NormalizedId(Get(row.fields, "left_entity_id", Null), "left_entity_id")
          case Err(e) => Err(e)
          case Ok(left) =>
            match NormalizedId(Get(row.fields, "right_entity_id", Null), "right_entity_id")
            case Err(e) => Err(e)
            case Ok(right) =>
              if left !in entityIds || right !in entityIds then Err("join_entity_not_found")
              else match NormalizedId(Get(row.fields, "left_key", Null), "left_key")
                case Err(e) => Err(e)
                case Ok(leftKey) =>
                  match NormalizedId(Get(row.fields, "right_key", Null), "right_key")
                  case Err(e) => Err(e)
                  case Ok(rightKey) =>
                    var joinType := Lower(Strip(TextOf(Get(row.fields, "join_type", Str("inner")))));
                    if joinType !in JOIN_TYPES then Err("invalid_join_type")
                    else Ok(Join(id, left, right, leftKey, rightKey, joinType))
  }

  // ----- all rows: accumulate left to right, then sort by id -----

  type RowReader<!T> = (nat, Json, set<string>) -> Result<T>

  function Keys<T>(key: T -> string, s: seq<T>): set<string> {
    set i | 0 <= i < |s| :: key(s[i])
  }

  function Collect<T>(read: RowReader<T>, key: T -> string, rows: seq<Json>): Result<seq<T>> {
    if rows == [] then Ok([])
    else match Collect(read, key, rows[..|rows| - 1])
      case Err(e) => Err(e)
      case Ok(front) =>
        match read(|rows| - 1, rows[|rows| - 1], Keys(key, front))
        case Err(e) => Err(e)
        case Ok(x) => Ok(front + [x])
  }

  function Sorted<T>(key: T -> string, collected: Result<seq<T>>): Result<seq<T>> {
    match collected
    case Err(e) => Err(e)
    case Ok(xs) => Ok(SortBy(key, xs))
  }

  function EntitiesOf(rows: seq<Json>): Result<seq<Entity>> {
    Sorted(EntityId, Collect(EntityRow, EntityId, rows))
  }

  function MetricReader(entityIds: set<string>): RowReader<Metric> {
    (index: nat, row: Json, seen: set<string>) => MetricRow(entityIds, index, row, seen)
  }

  function JoinReader(entityIds: set<string>): RowReader<Join> {
    (index: nat, row: Json, seen: set<string>) => JoinRow(entityIds, index, row, seen)
  }

  function MetricsOf(rows: seq<Json>, entityIds: set<string>): Result<seq<Metric>> {
    Sorted(MetricId, Collect(MetricReader(entityIds), MetricId, rows))
  }

  function JoinsOf(rows: seq<Json>, entityIds: set<string>): Result<seq<Join>> {
    Sorted(JoinId, Collect(JoinReader(entityIds), JoinId, rows))
  }

  /** What validate_semantic_manifest returns or raises. */
  function Validated(manifest: map<string, Json>, expectedWorkspaceId: Option<string>): Result<Manifest> {
    var workspaceId := Strip(TextOf(Get(manifest, "workspace_id", Str(""))));
    var entities := Get(manifest, "entities", List([], "[]"));
    var metrics := Get(manifest, "metrics", List([], "[]"));
    var joins := Get(manifest, "joins", List([], "[]"));
    if Strip(TextOf(Get(manifest, "manifest_version", Str("")))) != "1" then Err("invalid_manifest_version")
    else if workspaceId == "" then Err("missing_workspace_id")
    else if expectedWorkspaceId.Some? && workspaceId != expectedWorkspaceId.value then Err("workspace_mismatch")
    else if !entities.List? then Err("invalid_entities")
    else if !metrics.List? then Err("invalid_metrics")
    else if !joins.List? then Err("invalid_joins")
    else Assembled(workspaceId, entities.items, metrics.items, joins.items)
  }

  function Assembled(workspaceId: string, entities: seq<Json>, metrics: seq<Json>, joins: seq<Json>): Result<Manifest> {
    match EntitiesOf(entities)
    case Err(e) => Err(e)
    case Ok(es) =>
      match MetricsOf(metrics, EntityIds(es))
      case Err(e) => Err(e)
      case Ok(ms) =>
        match JoinsOf(joins, EntityIds(es))
        case Err(e) => Err(e)
        case Ok(js) => Ok(Manifest(workspaceId, es, ms, js))
  }

  // ----- the code: loops that grow `normalized` and `seen_ids` -----

  /** The loop shared by the three _normalize_* functions: stops at the first bad row. */
  method NormalizeRows<T>(read: RowReader<T>, key: T -> string, rows: seq<Json>) returns (r: Result<seq<T>>)
    ensures r == Sorted(key, Collect(read, key, rows))
  {
    var normalized: seq<T> := [];
    var seenIds: set<string> := {};
    for i := 0 to |rows|
      invariant Collect(read, key, rows[..i]) == Ok(normalized)
      invariant seenIds == Keys(key, normalized)
    {
      assert rows[..i + 1][..i] == rows[..i];
      var row := read(i, rows[i], seenIds);
      if row.Err? {
        CollectStops(read, key, rows, i + 1);
        return Err(row.error);
      }
      KeysAppend(key, normalized, row.value);
      seenIds := seenIds + {key(row.value)};
      normalized := normalized + [row.value];
    }
    assert rows[..|rows|] == rows;
    r := Ok(SortBy(key, normalized));
  }

  method ValidateSemanticManifest(manifest: map<string, Json>, expectedWorkspaceId: Option<string>)
    returns (r: Result<Manifest>)
    ensures r == Validated(manifest, expectedWorkspaceId)
  {
    var version := Strip(TextOf(Get(manifest, "manifest_version", Str(""))));
    if version != "1" { return Err("invalid_manifest_version"); }
    var workspaceId := Strip(TextOf(Get(manifest, "workspace_id", Str(""))));
    if workspaceId == "" { return Err("missing_workspace_id"); }
    if expectedWorkspaceId.Some? && workspaceId != expectedWorkspaceId.value { return Err("workspace_mismatch"); }
    var entitiesRaw := Get(manifest, "entities", List([], "[]"));
    var metricsRaw := Get(manifest, "metrics", List([], "[]"));
    var joinsRaw := Get(manifest, "joins", List([], "[]"));
    if !entitiesRaw.List? { return Err("invalid_entities"); }
    if !metricsRaw.List? { return Err("invalid_metrics"); }
    if !joinsRaw.List? { return Err("invalid_joins"); }

    var entities := NormalizeRows(EntityRow, EntityId, entitiesRaw.items);
    if entities.Err? { return Err(entities.error); }
    var entityIds := EntityIds(entities.value);
    var metrics := NormalizeRows(MetricReader(entityIds), MetricId, metricsRaw.items);
    if metrics.Err? { return Err(metrics.error); }
    var joins := NormalizeRows(JoinReader(entityIds), JoinId, joinsRaw.items);
    if joins.Err? { return Err(joins.error); }
    r := Ok(Manifest(workspaceId, entities.value, metrics.value, joins.value));
  }

  lemma KeysAppend<T>(key: T -> string, s: seq<T>, x: T)
    ensures Keys(key, s + [x]) == Keys(key, s) + {key(x)}
  {
    var more := s + [x];
    assert forall i | 0 <= i < |s| :: key(more[i]) == key(s[i]);
    assert key(more[|s|]) == key(x);
    forall k ensures k in Keys(key, more) <==> k in Keys(key, s) + {key(x)} {
      if k in Keys(key, s) { var i :| 0 <= i < |s| && key(s[i]) == k; assert key(more[i]) == k; }
    }
  }

  lemma {:induction false} CollectStops<T>(read: RowReader<T>, key: T -> string, rows: seq<Json>, n: nat)
    requires n <= |rows| && Collect(read, key, rows[..n]).Err?
    ensures Collect(read, key, rows) == Collect(read, key, rows[..n])
    decreases |rows| - n
  {
    if n == |rows| {
      assert rows[..n] == rows;
    } else {
      assert rows[..n + 1][..n] == rows[..n];
      CollectStops(read, key, rows, n + 1);
    }
  }

  // ----- collecting, described by what it accepts -----

  /** What a row reader does once the ids before it are known: it only adds the duplicate check. */
  ghost predicate Readable<T(!new)>(read: RowReader<T>, key: T -> string) {
    forall index: nat, row: Json, seen: set<string> ::
      && (read(index, row, seen).Ok? <==>
            read(index, row, {}).Ok? && key(read(index, row, {}).value) !in seen)
      && (read(index, row, seen).Ok? ==> read(index, row, seen) == read(index, row, {}))
  }

  /** Every row reads on its own and the ids are pairwise distinct. */
  ghost predicate Acceptable<T>(read: RowReader<T>, key: T -> string, rows: seq<Json>) {
    && (forall i | 0 <= i < |rows| :: read(i, rows[i], {}).Ok?)
    && (forall i, j | 0 <= i < j < |rows| :: key(read(i, rows[i], {}).value) != key(read(j, rows[j], {}).value))
  }

  lemma {:induction false} CollectAccepts<T(!new)>(read: RowReader<T>, key: T -> string, rows: seq<Json>)
    requires Readable(read, key)
    ensures Collect(read, key, rows).Ok? <==> Acceptable(read, key, rows)
    ensures Acceptable(read, key, rows) ==>
              var xs := Collect(read, key, rows).value;
              |xs| == |rows| && DistinctKeys(key, xs)
              && forall i | 0 <= i < |rows| :: read(i, rows[i], {}) == Ok(xs[i])
  {
    if rows != [] {
      var front, n := rows[..|rows| - 1], |rows| - 1;
      CollectAccepts(read, key, front);
      if Acceptable(read, key, front) {
        var xs := Collect(read, key, front).value;
        assert forall i | 0 <= i < n :: read(i, rows[i], {}) == Ok(xs[i]) by {
          forall i | 0 <= i < n ensures read(i, rows[i], {}) == Ok(xs[i]) { assert front[i] == rows[i]; }
        }
        assert read(n, rows[n], Keys(key, xs)).Ok? <==>
               read(n, rows[n], {}).Ok? && key(read(n, rows[n], {}).value) !in Keys(key, xs);
        if read(n, rows[n], {}).Ok? {
          var k := key(read(n, rows[n], {}).value);
          if k in Keys(key, xs) {
            var i :| 0 <= i < n && key(xs[i]) == k;
            assert !Acceptable(read, key, rows);
          } else {
            forall i | 0 <= i < n ensures key(xs[i]) != k {}
          }
        }
      } else {
        if Acceptable(read, key, rows) { AcceptablePrefix(read, key, rows, n); }
      }
    }
  }

  lemma AcceptablePrefix<T>(read: RowReader<T>, key: T -> string, rows: seq<Json>, n: nat)
    requires Acceptable(read, key, rows) && n <= |rows|
    ensures Acceptable(read, key, rows[..n])
  {
    var front := rows[..n];
    forall i | 0 <= i < n ensures read(i, front[i], {}).Ok? { assert front[i] == rows[i]; }
    forall i, j | 0 <= i < j < n ensures key(read(i, front[i], {}).value) != key(read(j, front[j], {}).value) {
      assert front[i] == rows[i] && front[j] == rows[j];
    }
  }

  lemma EntityRowsReadable()
    ensures Readable(EntityRow, EntityId)
  {
  }

  lemma MetricRowReadable(entityIds: set<string>, index: nat, row: Json, seen: set<string>)
    ensures MetricRow(entityIds, index, row, seen).Ok? <==>
              MetricRow(entityIds, index, row, {}).Ok? && MetricRow(entityIds, index, row, {}).value.id !in seen
    ensures MetricRow(entityIds, index, row, seen).Ok? ==>
              MetricRow(entityIds, index, row, seen) == MetricRow(entityIds, index, row, {})
  {
  }

  lemma MetricRowsReadable(entityIds: set<string>)
    ensures Readable(MetricReader(entityIds), MetricId)
  {
    forall index: nat, row: Json, seen: set<string> { MetricRowReadable(entityIds, index, row, seen); }
  }

  lemma JoinRowReadable(entityIds: set<string>, index: nat, row: Json, seen: set<string>)
    ensures JoinRow(entityIds, index, row, seen).Ok? <==>
              JoinRow(entityIds, index, row, {}).Ok? && JoinRow(entityIds, index, row, {}).value.id !in seen
    ensures JoinRow(entityIds, index, row, seen).Ok? ==>
              JoinRow(entityIds, index, row, seen) == JoinRow(entityIds, index, row, {})
  {
  }

  lemma JoinRowsReadable(entityIds: set<string>)
    ensures Readable(JoinReader(entityIds), JoinId)
  {
    forall index: nat, row: Json, seen: set<string> { JoinRowReadable(entityIds, index, row, seen); }
  }

  // ----- the normal form -----

  ghost predicate EntityNormal(e: Entity) {
    && IsIdent(e.id) && e.datasetId != "" && IsStripped(e.datasetId) && IsIdent(e.primaryKey)
    && StrictlySorted(Itself, e.attributes) && forall a | a in e.attributes :: IsIdent(a)
  }

  ghost predicate MetricNormal(m: Metric, entityIds: set<string>) {
    && IsIdent(m.id) && IsIdent(m.entityId) && m.entityId in entityIds && m.aggregation in AGGREGATIONS
    && IsIdent(m.field) && m.expression != "" && IsStripped(m.expression)
  }

  ghost predicate JoinNormal(j: Join, entityIds: set<string>) {
    && IsIdent(j.id) && IsIdent(j.leftEntity) && IsIdent(j.rightEntity)
    && j.leftEntity in entityIds && j.rightEntity in entityIds
    && IsIdent(j.leftKey) && IsIdent(j.rightKey) && j.joinType in JOIN_TYPES
  }

  /** Ids sorted and distinct, every field well formed, every reference resolved. */
  ghost predicate NormalForm(m: Manifest) {
    && m.workspaceId != "" && IsStripped(m.workspaceId)
    && StrictlySorted(EntityId, m.entities) && (forall e | e in m.entities :: EntityNormal(e))
    && StrictlySorted(MetricId, m.metrics) && (forall x | x in m.metrics :: MetricNormal(x, EntityIds(m.entities)))
    && StrictlySorted(JoinId, m.joins) && (forall j | j in m.joins :: JoinNormal(j, EntityIds(m.entities)))
  }

  lemma NormalizedIdIsIdent(v: Json, field: string)
    requires NormalizedId(v, field).Ok?
    ensures IsIdent(NormalizedId(v, field).value)
  {
    StrippedIdPattern(NormalizedId(v, field).value);
  }

  lemma {:induction false} NormalizedIdsAreIdents(items: seq<Json>, field: string)
    requires NormalizedIds(items, field).Ok?
    ensures forall x | x in NormalizedIds(items, field).value :: IsIdent(x)
  {
    if items != [] {
      NormalizedIdsAreIdents(items[..|items| - 1], field);
      NormalizedIdIsIdent(items[|items| - 1], field);
    }
  }

  lemma EntityRowNormal(index: nat, row: Json, seen: set<string>)
    requires EntityRow(index, row, seen).Ok?
    ensures EntityNormal(EntityRow(index, row, seen).value)
  {
    NormalizedIdIsIdent(Get(row.fields, "entity_id", Null), "entity_id");
    NormalizedIdIsIdent(Get(row.fields, "primary_key", Null), "primary_key");
    var items := Get(row.fields, "attributes", List([], "[]")).items;
    NormalizedIdsAreIdents(items, "attribute");
    SortedSetFacts(NormalizedIds(items, "attribute").value);
  }

  lemma MetricRowNormal(entityIds: set<string>, index: nat, row: Json, seen: set<string>)
    requires MetricRow(entityIds, index, row, seen).Ok?
    ensures MetricNormal(MetricRow(entityIds, index, row, seen).value, entityIds)
  {
    NormalizedIdIsIdent(Get(row.fields, "metric_id", Null), "metric_id");
    NormalizedIdIsIdent(Get(row.fields, "entity_id", Null), "metric_entity_id");
    NormalizedIdIsIdent(Get(row.fields, "field", Null), "metric_field");
    CallStripped(Lower(Strip(TextOf(Get(row.fields, "aggregation", Str(""))))),
                 NormalizedId(Get(row.fields, "field", Null), "metric_field").value);
  }

  lemma CallStripped(aggregation: string, field: string)
    requires aggregation in AGGREGATIONS
    ensures IsStripped(aggregation + "(" + field + ")")
  {
    var call := aggregation + "(" + field + ")";
    assert !IsSpace(aggregation[0]) && call[0] == aggregation[0] && call[|call| - 1] == ')';
  }

  lemma JoinRowNormal(entityIds: set<string>, index: nat, row: Json, seen: set<string>)
    requires JoinRow(entityIds, index, row, seen).Ok?
    ensures JoinNormal(JoinRow(entityIds, index, row, seen).value, entityIds)
  {
    var asked := AskedJoinId(row);
    NormalizedIdIsIdent(Str(if asked == "" then "join_" + Decimal(index + 1) else asked), "join_id");
    NormalizedIdIsIdent(Get(row.fields, "left_entity_id", Null), "left_entity_id");
    NormalizedIdIsIdent(Get(row.fields, "right_entity_id", Null), "right_entity_id");
    NormalizedIdIsIdent(Get(row.fields, "left_key", Null), "left_key");
    NormalizedIdIsIdent(Get(row.fields, "right_key", Null), "right_key");
  }

  /** The sorted rows are strictly sorted, and each comes from reading some input row. */
  lemma SortedRows<T(!new)>(read: RowReader<T>, key: T -> string, rows: seq<Json>)
    requires Readable(read, key) && Sorted(key, Collect(read, key, rows)).Ok?
    ensures StrictlySorted(key, Sorted(key, Collect(read, key, rows)).value)
    ensures forall x <- Sorted(key, Collect(read, key, rows)).value ::
              exists i :: 0 <= i < |rows| && read(i, rows[i], {}) == Ok(x)
  {
    CollectAccepts(read, key, rows);
    var xs := Collect(read, key, rows).value;
    SortSorted(key, xs);
    SortContents(key, xs);
    forall x | x in SortBy(key, xs) ensures exists i :: 0 <= i < |rows| && read(i, rows[i], {}) == Ok(x) {
      assert x in multiset(xs);
      var i :| 0 <= i < |xs| && xs[i] == x;
      assert read(i, rows[i], {}) == Ok(x);
    }
  }

  /** Soundness: whatever is accepted is in normal form. */
  lemma ValidatedIsNormal(manifest: map<string, Json>, expected: Option<string>)
    requires Validated(manifest, expected).Ok?
    ensures NormalForm(Validated(manifest, expected).value)
    ensures expected.Some? ==> Validated(manifest, expected).value.workspaceId == expected.value
  {
    var m := Validated(manifest, expected).value;
    var ids := EntityIds(m.entities);
    var es := Get(manifest, "entities", List([], "[]")).items;
    var ms := Get(manifest, "metrics", List([], "[]")).items;
    var js := Get(manifest, "joins", List([], "[]")).items;
    EntityRowsReadable();
    SortedRows(EntityRow, EntityId, es);
    forall e | e in m.entities ensures EntityNormal(e) {
      var i :| 0 <= i < |es| && EntityRow(i, es[i], {}) == Ok(e);
      EntityRowNormal(i, es[i], {});
    }
    MetricRowsReadable(ids);
    SortedRows(MetricReader(ids), MetricId, ms);
    forall x | x in m.metrics ensures MetricNormal(x, ids) {
      var i :| 0 <= i < |ms| && MetricReader(ids)(i, ms[i], {}) == Ok(x);
      MetricRowNormal(ids, i, ms[i], {});
    }
    JoinRowsReadable(ids);
    SortedRows(JoinReader(ids), JoinId, js);
    forall j | j in m.joins ensures JoinNormal(j, ids) {
      var i :| 0 <= i < |js| && JoinReader(ids)(i, js[i], {}) == Ok(j);
      JoinRowNormal(ids, i, js[i], {});
    }
  }

  // ----- writing a normalized manifest back as JSON -----

  function Texts(xs: seq<string>): Json {
    List(seq(|xs|, i requires 0 <= i < |xs| => Str(xs[i])), "")
  }

  function EntityJson(e: Entity): Json {
    Object(map["entity_id" := Str(e.id), "dataset_id" := Str(e.datasetId), "primary_key" := Str(e.primaryKey),
               "attributes" := Texts(e.attributes)], "")
  }

  function MetricJson(m: Metric): Json {
    Object(map["metric_id" := Str(m.id), "entity_id" := Str(m.entityId), "aggregation" := Str(m.aggregation),
               "field" := Str(m.field), "expression" := Str(m.expression)], "")
  }

  function JoinJson(j: Join): Json {
    Object(map["join_id" := Str(j.id), "left_entity_id" := Str(j.leftEntity), "right_entity_id" := Str(j.rightEntity),
               "left_key" := Str(j.leftKey), "right_key" := Str(j.rightKey), "join_type" := Str(j.joinType)], "")
  }

  function Rows<T>(write: T -> Json, xs: seq<T>): seq<Json> {
    seq(|xs|, i requires 0 <= i < |xs| => write(xs[i]))
  }

  /** The dictionary validate_semantic_manifest returns. */
  function ManifestJson(m: Manifest): map<string, Json> {
    map["manifest_version" := Str("1"), "workspace_id" := Str(m.workspaceId),
        "entities" := List(Rows(EntityJson, m.entities), ""),
        "metrics" := List(Rows(MetricJson, m.metrics), ""),
        "joins" := List(Rows(JoinJson, m.joins), "")]
  }

  lemma IdentReads(s: string, field: string)
    requires IsIdent(s)
    ensures NormalizedId(Str(s), field) == Ok(s)
  {
    IdentStripped(s);
  }

  lemma {:induction false} IdentsRead(xs: seq<string>, field: string)
    requires forall x | x in xs :: IsIdent(x)
    ensures NormalizedIds(Texts(xs).items, field) == Ok(xs)
  {
    if xs != [] {
      var front, last := xs[..|xs| - 1], xs[|xs| - 1];
      IdentsRead(front, field);
      IdentReads(last, field);
      TextsFront(xs);
      NextIdRead(Texts(xs).items, field, front, last);
      assert xs == front + [last];
    }
  }

  lemma TextsFront(xs: seq<string>)
    requires xs != []
    ensures var items := Texts(xs).items;
            |items| == |xs| && items[..|xs| - 1] == Texts(xs[..|xs| - 1]).items && items[|xs| - 1] == Str(xs[|xs| - 1])
  {
  }

  lemma NextIdRead(items: seq<Json>, field: string, front: seq<string>, last: string)
    requires items != [] && NormalizedIds(items[..|items| - 1], field) == Ok(front)
    requires NormalizedId(items[|items| - 1], field) == Ok(last)
    ensures NormalizedIds(items, field) == Ok(front + [last])
  {
  }

  lemma KeywordLetters(s: string)
    requires s in AGGREGATIONS || s in JOIN_TYPES
    ensures s != "" && forall i | 0 <= i < |s| :: 'a' <= s[i] <= 'z'
  {
  }

  lemma KeywordFixed(s: string)
    requires s in AGGREGATIONS || s in JOIN_TYPES
    ensures Lower(Strip(s)) == s
  {
    KeywordLetters(s);
    LowercaseWordFixed(s);
  }

  lemma LowercaseWordFixed(s: string)
    requires s != "" && forall i | 0 <= i < |s| :: 'a' <= s[i] <= 'z'
    ensures Lower(Strip(s)) == s
  {
    StripFixed(s);
    LowerFixed(s);
  }

  lemma EntityFields(e: Entity, none: Json)
    ensures var f := EntityJson(e).fields;
            && Get(f, "entity_id", none) == Str(e.id) && Get(f, "dataset_id", none) == Str(e.datasetId)
            && Get(f, "primary_key", none) == Str(e.primaryKey) && Get(f, "attributes", none) == Texts(e.attributes)
  {
  }

  lemma MetricFields(m: Metric, none: Json)
    ensures var f := MetricJson(m).fields;
            && Get(f, "metric_id", none) == Str(m.id) && Get(f, "entity_id", none) == Str(m.entityId)
            && Get(f, "aggregation", none) == Str(m.aggregation) && Get(f, "field", none) == Str(m.field)
            && Get(f, "expression", none) == Str(m.expression)
  {
  }

  lemma JoinFields(j: Join, none: Json)
    ensures var f := JoinJson(j).fields;
            && Get(f, "join_id", none) == Str(j.id) && Get(f, "left_entity_id", none) == Str(j.leftEntity)
            && Get(f, "right_entity_id", none) == Str(j.rightEntity) && Get(f, "left_key", none) == Str(j.leftKey)
            && Get(f, "right_key", none) == Str(j.rightKey) && Get(f, "join_type", none) == Str(j.joinType)
  {
  }

  lemma EntityReadsBack(index: nat, e: Entity)
    requires EntityNormal(e)
    ensures EntityRow(index, EntityJson(e), {}) == Ok(e)
  {
    EntityFields(e, Null);
    EntityFields(e, Str(""));
    EntityFields(e, List([], "[]"));
    IdentReads(e.id, "entity_id");
    IdentReads(e.primaryKey, "primary_key");
    StripFixed(e.datasetId);
    IdentsRead(e.attributes, "attribute");
    SortedSetFixed(e.attributes);
  }

  lemma MetricReadsBack(entityIds: set<string>, index: nat, m: Metric)
    requires MetricNormal(m, entityIds)
    ensures MetricRow(entityIds, index, MetricJson(m), {}) == Ok(m)
  {
    MetricFields(m, Null);
    MetricFields(m, Str(""));
    IdentReads(m.id, "metric_id");
    IdentReads(m.entityId, "metric_entity_id");
    IdentReads(m.field, "metric_field");
    KeywordFixed(m.aggregation);
    StripFixed(m.expression);
  }

  lemma JoinFieldsRead(entityIds: set<string>, index: nat, row: Json, j: Join)
    requires JoinNormal(j, entityIds) && row.Object?
    requires j.id == if AskedJoinId(row) == "" then "join_" + Decimal(index + 1) else AskedJoinId(row)
    requires Get(row.fields, "left_entity_id", Null) == Str(j.leftEntity)
    requires Get(row.fields, "right_entity_id", Null) == Str(j.rightEntity)
    requires Get(row.fields, "left_key", Null) == Str(j.leftKey)
    requires Get(row.fields, "right_key", Null) == Str(j.rightKey)
    requires Get(row.fields, "join_type", Str("inner")) == Str(j.joinType)
    ensures JoinRow(entityIds, index, row, {}) == Ok(j)
  {
    IdentReads(j.id, "join_id");
    IdentReads(j.leftEntity, "left_entity_id");
    IdentReads(j.rightEntity, "right_entity_id");
    IdentReads(j.leftKey, "left_key");
    IdentReads(j.rightKey, "right_key");
    KeywordFixed(j.joinType);
  }

  lemma JoinReadsBack(entityIds: set<string>, index: nat, j: Join)
    requires JoinNormal(j, entityIds)
    ensures JoinRow(entityIds, index, JoinJson(j), {}) == Ok(j)
  {
    JoinFields(j, Null);
    JoinFields(j, Str(""));
    JoinFields(j, Str("inner"));
    IdentStripped(j.id);
    JoinFieldsRead(entityIds, index, JoinJson(j), j);
  }

  /** Rows that read back to values with distinct ids are collected, then sorted. */
  lemma DistinctRowsReadBack<T(!new)>(read: RowReader<T>, key: T -> string, rows: seq<Json>, xs: seq<T>)
    requires Readable(read, key) && DistinctKeys(key, xs) && |rows| == |xs|
    requires forall i | 0 <= i < |xs| :: read(i, rows[i], {}) == Ok(xs[i])
    ensures Sorted(key, Collect(read, key, rows)) == Ok(SortBy(key, xs))
  {
    CollectAccepts(read, key, rows);
    assert Collect(read, key, rows).value == xs;
  }

  /** Rows that read back to strictly sorted values are collected as they stand. */
  lemma RowsReadBack<T(!new)>(read: RowReader<T>, key: T -> string, rows: seq<Json>, xs: seq<T>)
    requires Readable(read, key) && StrictlySorted(key, xs) && |rows| == |xs|
    requires forall i | 0 <= i < |xs| :: read(i, rows[i], {}) == Ok(xs[i])
    ensures Sorted(key, Collect(read, key, rows)) == Ok(xs)
  {
    forall i, j | 0 <= i < j < |xs| ensures key(xs[i]) != key(xs[j]) {
      LessAsymmetric(key(xs[i]), key(xs[j]));
    }
    DistinctRowsReadBack(read, key, rows, xs);
    SortFixed(key, xs);
  }

  lemma EntitiesReadBack(es: seq<Entity>)
    requires StrictlySorted(EntityId, es) && forall e | e in es :: EntityNormal(e)
    ensures EntitiesOf(Rows(EntityJson, es)) == Ok(es)
  {
    EntityRowsReadable();
    forall i | 0 <= i < |es| ensures EntityRow(i, Rows(EntityJson, es)[i], {}) == Ok(es[i]) {
      EntityReadsBack(i, es[i]);
    }
    RowsReadBack(EntityRow, EntityId, Rows(EntityJson, es), es);
  }

  lemma MetricsReadBack(ids: set<string>, ms: seq<Metric>)
    requires StrictlySorted(MetricId, ms) && forall m | m in ms :: MetricNormal(m, ids)
    ensures MetricsOf(Rows(MetricJson, ms), ids) == Ok(ms)
  {
    MetricRowsReadable(ids);
    forall i | 0 <= i < |ms| ensures MetricReader(ids)(i, Rows(MetricJson, ms)[i], {}) == Ok(ms[i]) {
      MetricReadsBack(ids, i, ms[i]);
    }
    RowsReadBack(MetricReader(ids), MetricId, Rows(MetricJson, ms), ms);
  }

  lemma JoinsReadBack(ids: set<string>, js: seq<Join>)
    requires StrictlySorted(JoinId, js) && forall j | j in js :: JoinNormal(j, ids)
    ensures JoinsOf(Rows(JoinJson, js), ids) == Ok(js)
  {
    JoinRowsReadable(ids);
    forall i | 0 <= i < |js| ensures JoinReader(ids)(i, Rows(JoinJson, js)[i], {}) == Ok(js[i]) {
      JoinReadsBack(ids, i, js[i]);
    }
    RowsReadBack(JoinReader(ids), JoinId, Rows(JoinJson, js), js);
  }

  lemma ManifestFields(m: Manifest, none: Json)
    ensures var f := ManifestJson(m);
            && Get(f, "manifest_version", none) == Str("1") && Get(f, "workspace_id", none) == Str(m.workspaceId)
            && Get(f, "entities", none) == List(Rows(EntityJson, m.entities), "")
            && Get(f, "metrics", none) == List(Rows(MetricJson, m.metrics), "")
            && Get(f, "joins", none) == List(Rows(JoinJson, m.joins), "")
  {
  }

  /** Completeness: every manifest in normal form is accepted, and comes back unchanged. */
  lemma NormalIsValidated(m: Manifest, expected: Option<string>)
    requires NormalForm(m) && (expected.Some? ==> expected.value == m.workspaceId)
    ensures Validated(ManifestJson(m), expected) == Ok(m)
  {
    StripFixed(m.workspaceId);
    StripFixed("1");
    ManifestFields(m, Str(""));
    ManifestFields(m, List([], "[]"));
    NormalIsAssembled(m);
    FieldsValidated(ManifestJson(m), "1", m.workspaceId, Rows(EntityJson, m.entities), Rows(MetricJson, m.metrics),
                    Rows(JoinJson, m.joins), expected);
  }

  lemma FieldsValidated(f: map<string, Json>, version: string, workspaceId: string, es: seq<Json>, ms: seq<Json>,
                        js: seq<Json>, expected: Option<string>)
    requires Get(f, "manifest_version", Str("")) == Str(version) && Strip(version) == "1"
    requires Get(f, "workspace_id", Str("")) == Str(workspaceId) && Strip(workspaceId) == workspaceId != ""
    requires Get(f, "entities", List([], "[]")) == List(es, "") && Get(f, "metrics", List([], "[]")) == List(ms, "")
    requires Get(f, "joins", List([], "[]")) == List(js, "") && (expected.Some? ==> expected.value == workspaceId)
    ensures Validated(f, expected) == Assembled(workspaceId, es, ms, js)
  {
  }

  lemma NormalIsAssembled(m: Manifest)
    requires NormalForm(m)
    ensures Assembled(m.workspaceId, Rows(EntityJson, m.entities), Rows(MetricJson, m.metrics), Rows(JoinJson, m.joins))
            == Ok(m)
  {
    EntitiesReadBack(m.entities);
    MetricsReadBack(EntityIds(m.entities), m.metrics);
    JoinsReadBack(EntityIds(m.entities), m.joins);
  }

  /** Idempotence: validating the output of a validation gives that output again. */
  lemma ValidationIdempotent(manifest: map<string, Json>, expected: Option<string>)
    requires Validated(manifest, expected).Ok?
    ensures Validated(ManifestJson(Validated(manifest, expected).value), expected) == Validated(manifest, expected)
  {
    ValidatedIsNormal(manifest, expected);
    NormalIsValidated(Validated(manifest, expected).value, expected);
  }

  // ----- order of rows and attributes -----

  /** The reader ignores the position of these rows. */
  ghost predicate PositionFree<T(!new)>(read: RowReader<T>, rows: seq<Json>) {
    forall i: nat, j: nat, row | row in rows :: read(i, row, {}) == read(j, row, {})
  }

  /** The values read from permuted rows are a permutation of the values read before. */
  lemma {:induction false} ReadPermutation<T>(read: RowReader<T>, rows: seq<Json>, rows': seq<Json>, xs: seq<T>)
    returns (ys: seq<T>)
    requires multiset(rows) == multiset(rows') && |xs| == |rows|
    requires forall i | 0 <= i < |rows| :: read(0, rows[i], {}) == Ok(xs[i])
    ensures |ys| == |rows'| && multiset(ys) == multiset(xs)
    ensures forall i | 0 <= i < |rows'| :: read(0, rows'[i], {}) == Ok(ys[i])
    decreases |rows|
  {
    SameLength(rows, rows');
    if rows == [] {
      ys := [];
    } else {
      var n := |rows| - 1;
      var k := FindLast(rows, rows');
      var rest := rows'[..k] + rows'[k + 1..];
      var rows0, xs0 := rows[..n], xs[..n];
      forall i | 0 <= i < n ensures read(0, rows0[i], {}) == Ok(xs0[i]) { assert rows0[i] == rows[i]; }
      var zs := ReadPermutation(read, rows0, rest, xs0);
      ys := InsertAt(zs, k, xs[n]);
      FrontMultiset(xs);
      forall i | 0 <= i < |rows'| ensures read(0, rows'[i], {}) == Ok(ys[i]) {
        if i < k {
          assert rest[i] == rows'[i];
        } else if i > k {
          assert rest[i - 1] == rows'[i];
        }
      }
    }
  }

  /** Acceptance and result of collecting and sorting do not depend on the order of the rows. */
  lemma CollectPermutation<T(!new)>(read: RowReader<T>, key: T -> string, rows: seq<Json>, rows': seq<Json>)
    requires Readable(read, key) && PositionFree(read, rows) && multiset(rows) == multiset(rows')
    ensures Sorted(key, Collect(read, key, rows)).Ok? ==>
              Sorted(key, Collect(read, key, rows')) == Sorted(key, Collect(read, key, rows))
  {
    if Collect(read, key, rows).Ok? {
      CollectAccepts(read, key, rows);
      var xs := Collect(read, key, rows).value;
      forall i | 0 <= i < |rows| ensures read(0, rows[i], {}) == Ok(xs[i]) {
        assert rows[i] in rows;
        assert read(i, rows[i], {}) == read(0, rows[i], {});
      }
      var ys := ReadPermutation(read, rows, rows', xs);
      DistinctKeysPermutation(key, xs, ys);
      CollectAs(read, key, rows, rows', ys);
      SortPermutation(key, xs, ys);
    }
  }

  lemma CollectAs<T(!new)>(read: RowReader<T>, key: T -> string, rows: seq<Json>, rows': seq<Json>, ys: seq<T>)
    requires Readable(read, key) && PositionFree(read, rows) && multiset(rows) == multiset(rows')
    requires |ys| == |rows'| && DistinctKeys(key, ys)
    requires forall i | 0 <= i < |rows'| :: read(0, rows'[i], {}) == Ok(ys[i])
    ensures Collect(read, key, rows') == Ok(ys)
  {
    PositionFreePermuted(read, rows, rows');
    CollectAccepts(read, key, rows');
    assert Acceptable(read, key, rows');
    assert Collect(read, key, rows').value == ys;
  }

  lemma PositionFreePermuted<T(!new)>(read: RowReader<T>, rows: seq<Json>, rows': seq<Json>)
    requires PositionFree(read, rows) && multiset(rows) == multiset(rows')
    ensures forall i | 0 <= i < |rows'| :: read(i, rows'[i], {}) == read(0, rows'[i], {})
  {
    forall i | 0 <= i < |rows'| ensures read(i, rows'[i], {}) == read(0, rows'[i], {}) {
      assert rows'[i] in multiset(rows');
      assert rows'[i] in rows;
    }
  }

  /** Every join row asks for an id of its own. */
  predicate ExplicitJoinIds(rows: seq<Json>) {
    forall row | row in rows :: row.Object? ==> AskedJoinId(row) != ""
  }

  /** Permuting entities, metrics and joins with explicit ids changes neither acceptance nor the result. */
  lemma RowOrderIrrelevant(workspaceId: string, es: seq<Json>, es': seq<Json>, ms: seq<Json>, ms': seq<Json>,
                           js: seq<Json>, js': seq<Json>)
    requires multiset(es) == multiset(es') && multiset(ms) == multiset(ms') && multiset(js) == multiset(js')
    requires ExplicitJoinIds(js)
    ensures Assembled(workspaceId, es, ms, js).Ok? <==> Assembled(workspaceId, es', ms', js').Ok?
    ensures Assembled(workspaceId, es, ms, js).Ok? ==>
              Assembled(workspaceId, es, ms, js) == Assembled(workspaceId, es', ms', js')
  {
    forall row | row in js' ensures row in js { assert row in multiset(js'); }
    if Assembled(workspaceId, es, ms, js).Ok? {
      AssembledPermutation(workspaceId, es, es', ms, ms', js, js');
    }
    if Assembled(workspaceId, es', ms', js').Ok? {
      AssembledPermutation(workspaceId, es', es, ms', ms, js', js);
    }
  }

  lemma AssembledPermutation(workspaceId: string, es: seq<Json>, es': seq<Json>, ms: seq<Json>, ms': seq<Json>,
                             js: seq<Json>, js': seq<Json>)
    requires multiset(es) == multiset(es') && multiset(ms) == multiset(ms') && multiset(js) == multiset(js')
    requires ExplicitJoinIds(js) && Assembled(workspaceId, es, ms, js).Ok?
    ensures Assembled(workspaceId, es, ms, js) == Assembled(workspaceId, es', ms', js')
  {
    var ids := EntityIds(EntitiesOf(es).value);
    EntityRowsReadable();
    CollectPermutation(EntityRow, EntityId, es, es');
    MetricRowsReadable(ids);
    CollectPermutation(MetricReader(ids), MetricId, ms, ms');
    ExplicitRowsPermuted(js, js', ids);
  }

  /** Reordering or repeating the attributes of an entity row changes neither acceptance nor the result. */
  lemma AttributeOrderIrrelevant(index: nat, fields: map<string, Json>, text: string, seen: set<string>,
                                 attributes: seq<Json>, attributes': seq<Json>)
    requires forall v :: v in attributes <==> v in attributes'
    ensures var r := EntityRow(index, Object(fields["attributes" := List(attributes, text)], text), seen);
            var r' := EntityRow(index, Object(fields["attributes" := List(attributes', text)], text), seen);
            (r.Ok? <==> r'.Ok?) && (r.Ok? ==> r == r')
  {
    NormalizedIdsSameSet(attributes, attributes', "attribute");
    OnlyAttributesChange(fields, List(attributes, text));
    OnlyAttributesChange(fields, List(attributes', text));
  }

  lemma OnlyAttributesChange(fields: map<string, Json>, attributes: Json)
    ensures var changed := fields["attributes" := attributes];
            && Get(changed, "entity_id", Null) == Get(fields, "entity_id", Null)
            && Get(changed, "dataset_id", Str("")) == Get(fields, "dataset_id", Str(""))
            && Get(changed, "primary_key", Null) == Get(fields, "primary_key", Null)
            && Get(changed, "attributes", List([], "[]")) == attributes
  {
  }

  lemma NormalizedIdsSameSet(items: seq<Json>, items': seq<Json>, field: string)
    requires forall v :: v in items <==> v in items'
    ensures NormalizedIds(items, field).Ok? <==> NormalizedIds(items', field).Ok?
    ensures NormalizedIds(items, field).Ok? ==>
              SortedSet(NormalizedIds(items, field).value) == SortedSet(NormalizedIds(items', field).value)
  {
    NormalizedIdsSet(items, field);
    NormalizedIdsSet(items', field);
    if NormalizedIds(items, field).Ok? {
      SortedSetExtensional(NormalizedIds(items, field).value, NormalizedIds(items', field).value);
    }
  }

  lemma {:induction false} NormalizedIdsSet(items: seq<Json>, field: string)
    ensures NormalizedIds(items, field).Ok? <==> forall v | v in items :: NormalizedId(v, field).Ok?
    ensures NormalizedIds(items, field).Ok? ==>
              forall x :: x in NormalizedIds(items, field).value <==>
                          exists v :: v in items && NormalizedId(v, field) == Ok(x)
  {
    if items != [] {
      var front, last := items[..|items| - 1], items[|items| - 1];
      NormalizedIdsSet(front, field);
      assert forall v :: v in items <==> v in front || v == last by { FrontMultiset(items); }
    }
  }

  /** The same join row without an id. */
  function BlankIdRow(j: Join): Json {
    Object(JoinJson(j).fields["join_id" := Str("")], "")
  }

  /** A join without an id is named after its position in the list. */
  lemma BlankIdReads(entityIds: set<string>, index: nat, j: Join)
    requires JoinNormal(j, entityIds)
    ensures JoinRow(entityIds, index, BlankIdRow(j), {}) == Ok(j.(id := "join_" + Decimal(index + 1)))
  {
    JoinNumberIdent(index + 1);
    BlankIdFields(j, Null);
    BlankIdFields(j, Str(""));
    BlankIdFields(j, Str("inner"));
    JoinFieldsRead(entityIds, index, BlankIdRow(j), j.(id := "join_" + Decimal(index + 1)));
  }

  lemma JoinNumberIdent(n: nat)
    ensures IsIdent("join_" + Decimal(n))
  {
  }

  lemma BlankIdFields(j: Join, none: Json)
    ensures var f := BlankIdRow(j).fields;
            && Get(f, "join_id", none) == Str("")
            && Get(f, "left_entity_id", none) == Str(j.leftEntity)
            && Get(f, "right_entity_id", none) == Str(j.rightEntity) && Get(f, "left_key", none) == Str(j.leftKey)
            && Get(f, "right_key", none) == Str(j.rightKey) && Get(f, "join_type", none) == Str(j.joinType)
  {
  }

  /** No join row asks for an id. */
  predicate BlankJoinIds(rows: seq<Json>) {
    forall row | row in rows :: row.Object? && AskedJoinId(row) == ""
  }

  /** What a join row says apart from its id. */
  function JoinContent(entityIds: set<string>, row: Json): Result<Join> {
    match JoinRow(entityIds, 0, row, {})
    case Err(e) => Err(e)
    case Ok(j) => Ok(j.(id := ""))
  }

  predicate AlikeApartFromId(entityIds: set<string>, rows: seq<Json>) {
    forall a, b | a in rows && b in rows :: JoinContent(entityIds, a) == JoinContent(entityIds, b)
  }

  /** Every permutation of the rows gives the same joins. */
  ghost predicate JoinOrderIrrelevant(rows: seq<Json>, entityIds: set<string>) {
    forall rows' | multiset(rows') == multiset(rows) :: JoinsOf(rows', entityIds) == JoinsOf(rows, entityIds)
  }

  /** The position of a row decides its id if it has none, and nothing else. */
  lemma JoinRowMoved(entityIds: set<string>, i: nat, j: nat, row: Json)
    requires JoinRow(entityIds, i, row, {}).Ok?
    ensures row.Object? && JoinRow(entityIds, j, row, {}).Ok?
    ensures var a, b := JoinRow(entityIds, i, row, {}).value, JoinRow(entityIds, j, row, {}).value;
            b == if AskedJoinId(row) == "" then a.(id := "join_" + Decimal(j + 1)) else a
  {
    JoinNumberReads(j);
  }

  lemma JoinNumberReads(index: nat)
    ensures NormalizedId(Str("join_" + Decimal(index + 1)), "join_id") == Ok("join_" + Decimal(index + 1))
  {
    JoinNumberIdent(index + 1);
    IdentReads("join_" + Decimal(index + 1), "join_id");
  }

  lemma JoinNumbersDiffer(i: nat, j: nat)
    requires "join_" + Decimal(i + 1) == "join_" + Decimal(j + 1)
    ensures i == j
  {
    assert ("join_" + Decimal(i + 1))[5..] == Decimal(i + 1) && ("join_" + Decimal(j + 1))[5..] == Decimal(j + 1);
    DecimalRoundTrip(i + 1);
    DecimalRoundTrip(j + 1);
  }

  /** The joins read from accepted rows, before they are sorted. */
  lemma ReadJoins(rows: seq<Json>, entityIds: set<string>) returns (xs: seq<Join>)
    requires JoinsOf(rows, entityIds).Ok?
    ensures |xs| == |rows| && DistinctKeys(JoinId, xs) && JoinsOf(rows, entityIds) == Ok(SortBy(JoinId, xs))
    ensures forall i | 0 <= i < |rows| :: JoinRow(entityIds, i, rows[i], {}) == Ok(xs[i])
  {
    var read := JoinReader(entityIds);
    JoinRowsReadable(entityIds);
    CollectAccepts(read, JoinId, rows);
    xs := Collect(read, JoinId, rows).value;
    forall i | 0 <= i < |rows| ensures JoinRow(entityIds, i, rows[i], {}) == Ok(xs[i]) {
      assert read(i, rows[i], {}) == Ok(xs[i]);
    }
  }

  /** Rows that read alike at each position give the same joins. */
  lemma SameReadingsSameJoins(rows: seq<Json>, rows': seq<Json>, entityIds: set<string>)
    requires JoinsOf(rows, entityIds).Ok? && |rows'| == |rows|
    requires forall i | 0 <= i < |rows| :: JoinRow(entityIds, i, rows'[i], {}) == JoinRow(entityIds, i, rows[i], {})
    ensures JoinsOf(rows', entityIds) == JoinsOf(rows, entityIds)
  {
    var read := JoinReader(entityIds);
    var xs := ReadJoins(rows, entityIds);
    JoinRowsReadable(entityIds);
    forall i | 0 <= i < |xs| ensures read(i, rows'[i], {}) == Ok(xs[i]) {
      assert JoinRow(entityIds, i, rows[i], {}) == Ok(xs[i]);
    }
    DistinctRowsReadBack(read, JoinId, rows', xs);
  }

  lemma BlankRowsAlike(rows: seq<Json>, rows': seq<Json>, entityIds: set<string>)
    requires JoinsOf(rows, entityIds).Ok? && multiset(rows') == multiset(rows)
    requires BlankJoinIds(rows) && AlikeApartFromId(entityIds, rows)
    ensures JoinsOf(rows', entityIds) == JoinsOf(rows, entityIds)
  {
    SameLength(rows, rows');
    var xs := ReadJoins(rows, entityIds);
    forall i | 0 <= i < |rows| ensures JoinRow(entityIds, i, rows'[i], {}) == JoinRow(entityIds, i, rows[i], {}) {
      assert rows'[i] in multiset(rows');
      assert rows'[i] in rows;
      var k :| 0 <= k < |rows| && rows[k] == rows'[i];
      assert JoinRow(entityIds, k, rows[k], {}) == Ok(xs[k]) && JoinRow(entityIds, i, rows[i], {}) == Ok(xs[i]);
      AlikeRowsRead(entityIds, k, i, rows[k], rows[i]);
    }
    SameReadingsSameJoins(rows, rows', entityIds);
  }

  lemma AlikeRowsRead(entityIds: set<string>, k: nat, i: nat, a: Json, b: Json)
    requires JoinRow(entityIds, k, a, {}).Ok? && JoinRow(entityIds, i, b, {}).Ok? && a.Object? && b.Object?
    requires AskedJoinId(a) == "" && AskedJoinId(b) == "" && JoinContent(entityIds, a) == JoinContent(entityIds, b)
    ensures JoinRow(entityIds, i, a, {}) == JoinRow(entityIds, i, b, {})
  {
    JoinRowMoved(entityIds, k, 0, a);
    JoinRowMoved(entityIds, i, 0, b);
    JoinRowMoved(entityIds, 0, i, a);
    JoinRowMoved(entityIds, 0, i, b);
  }

  lemma SwappedMultiset<T>(s: seq<T>, i: nat, k: nat)
    requires i < |s| && k < |s|
    ensures multiset(s[i := s[k]][k := s[i]]) == multiset(s)
  {
  }

  /** A row without an id can be swapped only with its like. */
  lemma SwapKeeps(rows: seq<Json>, entityIds: set<string>, i: nat, k: nat)
    requires i < |rows| && k < |rows| && i != k && JoinsOf(rows, entityIds).Ok?
    requires rows[i].Object? && AskedJoinId(rows[i]) == ""
    requires JoinsOf(rows[i := rows[k]][k := rows[i]], entityIds) == JoinsOf(rows, entityIds)
    ensures rows[k].Object? && AskedJoinId(rows[k]) == "" && JoinContent(entityIds, rows[k]) == JoinContent(entityIds, rows[i])
  {
    var rows' := rows[i := rows[k]][k := rows[i]];
    var xs := ReadJoins(rows, entityIds);
    var ys := ReadJoins(rows', entityIds);
    SortContents(JoinId, xs);
    SortContents(JoinId, ys);
    assert xs[i] in multiset(ys);
    var p :| 0 <= p < |ys| && ys[p] == xs[i];
    assert JoinRow(entityIds, p, rows'[p], {}) == Ok(xs[i]);
    NotElsewhere(rows, entityIds, xs, i, k, p);
    SwappedIsAlike(entityIds, rows[i], rows[k], i, k, xs[i], xs[k]);
  }

  /** After the swap the join that was read at i can only be read at i again. */
  lemma NotElsewhere(rows: seq<Json>, entityIds: set<string>, xs: seq<Join>, i: nat, k: nat, p: nat)
    requires i < |rows| && k < |rows| && p < |rows| && i != k && |xs| == |rows| && DistinctKeys(JoinId, xs)
    requires forall n | 0 <= n < |rows| :: JoinRow(entityIds, n, rows[n], {}) == Ok(xs[n])
    requires rows[i].Object? && AskedJoinId(rows[i]) == ""
    requires JoinRow(entityIds, p, rows[i := rows[k]][k := rows[i]][p], {}) == Ok(xs[i])
    ensures p == i
  {
    assert JoinRow(entityIds, i, rows[i], {}) == Ok(xs[i]);
    if p == k {
      JoinRowMoved(entityIds, i, i, rows[i]);
      JoinRowMoved(entityIds, i, k, rows[i]);
      JoinNumbersDiffer(i, k);
    }
  }

  lemma SwappedIsAlike(entityIds: set<string>, a: Json, b: Json, i: nat, k: nat, x: Join, y: Join)
    requires i != k && x.id != y.id && a.Object? && AskedJoinId(a) == ""
    requires JoinRow(entityIds, i, a, {}) == Ok(x) && JoinRow(entityIds, k, b, {}) == Ok(y)
    requires JoinRow(entityIds, i, b, {}) == Ok(x)
    ensures b.Object? && AskedJoinId(b) == "" && JoinContent(entityIds, b) == JoinContent(entityIds, a)
  {
    JoinRowMoved(entityIds, k, i, b);
    JoinRowMoved(entityIds, i, 0, a);
    JoinRowMoved(entityIds, i, 0, b);
  }

  /** Of accepted join rows the order is irrelevant exactly when all ask for an id, or none does and all say the same. */
  lemma JoinOrderIrrelevantIff(rows: seq<Json>, entityIds: set<string>)
    requires JoinsOf(rows, entityIds).Ok?
    ensures JoinOrderIrrelevant(rows, entityIds) <==>
              ExplicitJoinIds(rows) || (BlankJoinIds(rows) && AlikeApartFromId(entityIds, rows))
  {
    if ExplicitJoinIds(rows) {
      forall rows' | multiset(rows') == multiset(rows) ensures JoinsOf(rows', entityIds) == JoinsOf(rows, entityIds) {
        ExplicitRowsPermuted(rows, rows', entityIds);
      }
    }
    if BlankJoinIds(rows) && AlikeApartFromId(entityIds, rows) {
      forall rows' | multiset(rows') == multiset(rows) ensures JoinsOf(rows', entityIds) == JoinsOf(rows, entityIds) {
        BlankRowsAlike(rows, rows', entityIds);
      }
    }
    if JoinOrderIrrelevant(rows, entityIds) && !ExplicitJoinIds(rows) { IrrelevantRowsAlike(rows, entityIds); }
  }

  lemma ExplicitRowsPermuted(rows: seq<Json>, rows': seq<Json>, entityIds: set<string>)
    requires multiset(rows') == multiset(rows) && ExplicitJoinIds(rows) && JoinsOf(rows, entityIds).Ok?
    ensures JoinsOf(rows', entityIds) == JoinsOf(rows, entityIds)
  {
    JoinRowsReadable(entityIds);
    ExplicitIsPositionFree(rows, entityIds);
    CollectPermutation(JoinReader(entityIds), JoinId, rows, rows');
  }

  lemma ExplicitIsPositionFree(rows: seq<Json>, entityIds: set<string>)
    requires ExplicitJoinIds(rows)
    ensures PositionFree(JoinReader(entityIds), rows)
  {
    forall i: nat, j: nat, row | row in rows
      ensures JoinReader(entityIds)(i, row, {}) == JoinReader(entityIds)(j, row, {})
    {
      ExplicitReadsAnywhere(entityIds, i, j, row);
    }
  }

  lemma ExplicitReadsAnywhere(entityIds: set<string>, i: nat, j: nat, row: Json)
    requires row.Object? ==> AskedJoinId(row) != ""
    ensures JoinRow(entityIds, i, row, {}) == JoinRow(entityIds, j, row, {})
  {
  }

  lemma IrrelevantRowsAlike(rows: seq<Json>, entityIds: set<string>)
    requires JoinsOf(rows, entityIds).Ok? && JoinOrderIrrelevant(rows, entityIds) && !ExplicitJoinIds(rows)
    ensures BlankJoinIds(rows) && AlikeApartFromId(entityIds, rows)
  {
    var blank :| blank in rows && blank.Object? && AskedJoinId(blank) == "";
    var i :| 0 <= i < |rows| && rows[i] == blank;
    forall row | row in rows
      ensures row.Object? && AskedJoinId(row) == "" && JoinContent(entityIds, row) == JoinContent(entityIds, blank)
    {
      var k :| 0 <= k < |rows| && rows[k] == row;
      if k != i { IrrelevantPairAlike(rows, entityIds, i, k); }
    }
  }

  lemma IrrelevantPairAlike(rows: seq<Json>, entityIds: set<string>, i: nat, k: nat)
    requires JoinsOf(rows, entityIds).Ok? && JoinOrderIrrelevant(rows, entityIds)
    requires i < |rows| && k < |rows| && i != k && rows[i].Object? && AskedJoinId(rows[i]) == ""
    ensures rows[k].Object? && AskedJoinId(rows[k]) == "" && JoinContent(entityIds, rows[k]) == JoinContent(entityIds, rows[i])
  {
    SwappedMultiset(rows, i, k);
    SwapKeeps(rows, entityIds, i, k);
  }

  /** Order may decide even acceptance: a row with the id of the second position is accepted only after one without. */
  lemma BlankJoinIdsDependOnOrder(entityIds: set<string>, j: Join)
    requires JoinNormal(j, entityIds) && j.id == "join_2"
    ensures JoinsOf([JoinJson(j), BlankIdRow(j)], entityIds).Err?
    ensures JoinsOf([BlankIdRow(j), JoinJson(j)], entityIds).Ok?
  {
    JoinReadsBack(entityIds, 0, j);
    JoinReadsBack(entityIds, 1, j);
    BlankIdReads(entityIds, 0, j);
    BlankIdReads(entityIds, 1, j);
    JoinRowsReadable(entityIds);
    CollectPair(JoinReader(entityIds), JoinId, JoinJson(j), BlankIdRow(j));
    CollectPair(JoinReader(entityIds), JoinId, BlankIdRow(j), JoinJson(j));
    FirstTwoPositions();
  }

  lemma FirstTwoPositions()
    ensures "join_" + Decimal(1) == "join_1" && "join_" + Decimal(2) == "join_2"
    ensures "join_1" != "join_2"
  {
    assert "join_1"[5] != "join_2"[5];
  }

  lemma CollectPair<T(!new)>(read: RowReader<T>, key: T -> string, a: Json, b: Json)
    requires Readable(read, key) && read(0, a, {}).Ok? && read(1, b, {}).Ok?
    ensures Collect(read, key, [a, b]).Ok? <==> key(read(0, a, {}).value) != key(read(1, b, {}).value)
  {
    CollectAccepts(read, key, [a, b]);
  }
}
