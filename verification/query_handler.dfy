/** backend/gateway/app.py: the part of the query endpoint that looks up, executes, masks and stores. */
module QueryHandler {
  import opened Text
  import opened Semantic
  import opened QueryCache

  type Value = Json

  datatype Column = Column(name: string, kind: string)
  datatype ResultSet = ResultSet(columns: seq<Column>, rows: seq<seq<Value>>)

  /** What is cached and answered: columns and masked rows. */
  type Payload = ResultSet

  datatype Pointer = Pointer(snapshotId: string, buildId: string, modelName: string)

  datatype Request = Request(workspaceId: string, actorId: string, actorRoles: Json, actorAttributes: Json,
                             queryText: string, datasetsUsed: seq<string>, rowFilter: Option<(string, string)>,
                             masks: map<string, string>, maxRows: int, timeoutMs: int, policyPack: Json)

  /** What execute_sql is given. */
  datatype Execution = Execution(sql: string, maxRows: int, rowFilter: Option<(string, string)>, timeoutMs: int,
                                 workspaceId: string, engine: string)

  /** The dictionary that is dumped as the cache key. */
  datatype KeyFields = KeyFields(workspaceId: string, actorId: string, actorRoles: Json, actorAttributes: Json,
                                 queryText: string, datasetsUsed: seq<string>, rowFilter: Option<(string, string)>,
                                 masks: map<string, string>, maxRows: int, timeoutMs: int, engine: string,
                                 policyPack: Json, snapshotId: string, buildId: string)

  /** The engine, json.dumps and apply_mask are functions of which nothing is assumed here. */
  datatype Gateway = Gateway(config: Config, engine: string,
                             execute: (Execution, Option<Pointer>) -> Result<ResultSet>,
                             applyMask: (Value, string) -> Value,
                             dump: KeyFields -> string)

  function SnapshotOf(p: Option<Pointer>): string { if p.Some? then p.value.snapshotId else "" }

  function BuildOf(p: Option<Pointer>): string { if p.Some? then p.value.buildId else "" }

  /** _build_query_cache_key before it is dumped */
  function KeyFieldsOf(g: Gateway, q: Request, p: Option<Pointer>): KeyFields {
    KeyFields(q.workspaceId, q.actorId, if q.actorRoles.List? then q.actorRoles else List([], "[]"),
              q.actorAttributes, q.queryText, SortBy(Itself, q.datasetsUsed), q.rowFilter, q.masks, q.maxRows,
              q.timeoutMs, g.engine, if Falsy(q.policyPack) then Object(map[], "{}") else q.policyPack,
              SnapshotOf(p), BuildOf(p))
  }

  function KeyOf(g: Gateway, q: Request, p: Option<Pointer>): string {
    g.dump(KeyFieldsOf(g, q, p))
  }

  function ExecutionOf(g: Gateway, q: Request): Execution {
    Execution(if q.queryText == "" then "select 1 as one" else q.queryText, q.maxRows, q.rowFilter, q.timeoutMs,
              q.workspaceId, g.engine)
  }

  // ----- masking -----

  function ColumnName(columns: seq<Column>, i: nat): string {
    if i < |columns| then columns[i].name else "col_" + Decimal(i)
  }

  function MaskedValue(g: Gateway, masks: map<string, string>, name: string, value: Value): Value {
    if name in masks && masks[name] != "" then g.applyMask(value, masks[name]) else value
  }

  function MaskedRow(g: Gateway, masks: map<string, string>, columns: seq<Column>, row: seq<Value>): seq<Value> {
    seq(|row|, i requires 0 <= i < |row| => MaskedValue(g, masks, ColumnName(columns, i), row[i]))
  }

  function MaskedRows(g: Gateway, masks: map<string, string>, result: ResultSet): seq<seq<Value>> {
    seq(|result.rows|, i requires 0 <= i < |result.rows| => MaskedRow(g, masks, result.columns, result.rows[i]))
  }

  method MaskRows(g: Gateway, masks: map<string, string>, result: ResultSet) returns (masked: seq<seq<Value>>)
    ensures masked == MaskedRows(g, masks, result)
  {
    masked := [];
    for r := 0 to |result.rows|
      invariant masked == MaskedRows(g, masks, result)[..r]
    {
      var row := result.rows[r];
      var maskedRow: seq<Value> := [];
      for i := 0 to |row|
        invariant maskedRow == MaskedRow(g, masks, result.columns, row)[..i]
      {
        var name := if i < |result.columns| then result.columns[i].name else "col_" + Decimal(i);
        var value := if name in masks && masks[name] != "" then g.applyMask(row[i], masks[name]) else row[i];
        maskedRow := maskedRow + [value];
      }
      assert maskedRow == MaskedRow(g, masks, result.columns, row);
      masked := masked + [maskedRow];
    }
  }

  /** The answer a request gets without a cache: filtered by the engine, then masked. */
  function Fresh(g: Gateway, q: Request, p: Option<Pointer>): Result<Payload> {
    match g.execute(ExecutionOf(g, q), p)
    case Err(e) => Err(e)
    case Ok(result) => Ok(ResultSet(result.columns, MaskedRows(g, q.masks, result)))
  }

  // ----- the endpoint -----

  /** One request; the clock is read at the lookup and again at the store. */
  datatype Call = Call(q: Request, p: Option<Pointer>, lookedAt: real, storedAt: real)

  function Answered(g: Gateway, s: seq<Entry<Payload>>, c: Call): (seq<Entry<Payload>>, Result<Payload>) {
    var key := KeyOf(g, c.q, c.p);
    var (left, hit) := Looked(g.config, s, key, c.lookedAt);
    if hit.Some? then (left, Ok(hit.value))
    else match Fresh(g, c.q, c.p)
      case Err(e) => (left, Err(e))
      case Ok(payload) => (Stored(g.config, left, key, payload, c.storedAt), Ok(payload))
  }

  method Query(g: Gateway, cache: InMemoryQueryCache<Payload>, c: Call) returns (r: Result<Payload>)
    requires cache.config == g.config
    modifies cache
    ensures (cache.entries, r) == Answered(g, old(cache.entries), c)
  {
    var key := KeyOf(g, c.q, c.p);
    var cached := cache.Get(key, c.lookedAt);
    if cached.Some? { return Ok(cached.value); }
    var executed := g.execute(ExecutionOf(g, c.q), c.p);
    if executed.Err? { return Err(executed.error); }
    var rows := MaskRows(g, c.q.masks, executed.value);
    var payload := ResultSet(executed.value.columns, rows);
    cache.Set(key, payload, c.storedAt);
    r := Ok(payload);
  }

  /** The cache after a run of calls. */
  function After(g: Gateway, calls: seq<Call>): seq<Entry<Payload>> {
    if calls == [] then [] else Answered(g, After(g, calls[..|calls| - 1]), calls[|calls| - 1]).0
  }

  // ----- the cache refines recomputation -----

  ghost predicate Injective(dump: KeyFields -> string) {
    forall a, b :: dump(a) == dump(b) ==> a == b
  }

  /** The pointers that are live for a workspace at some time, None while it has published nothing. */
  type Pointers = iset<(string, Option<Pointer>)>

  /** Every call finds one of its workspace's pointers. */
  ghost predicate Carried(published: Pointers, calls: seq<Call>) {
    forall c | c in calls :: (c.q.workspaceId, c.p) in published
  }

  predicate SameIds(p: Option<Pointer>, p': Option<Pointer>) {
    SnapshotOf(p) == SnapshotOf(p') && BuildOf(p) == BuildOf(p')
  }

  /** Snapshot and build id identify a pointer of a workspace: no two of them differ in the model name alone. */
  ghost predicate IdsIdentify(published: Pointers) {
    forall w, p, p' | (w, p) in published && (w, p') in published && SameIds(p, p') :: p == p'
  }

  /** This engine answers alike for pointers of a workspace that agree on both ids. */
  ghost predicate KeyDetermines(g: Gateway, published: Pointers) {
    forall q: Request, p, p' | (q.workspaceId, p) in published && (q.workspaceId, p') in published
                      && SameIds(p, p') && Fresh(g, q, p).Ok? ::
      Fresh(g, q, p') == Fresh(g, q, p)
  }

  ghost predicate Answers(g: Gateway, published: Pointers, e: Entry<Payload>, q: Request, p: Option<Pointer>) {
    e.key == KeyOf(g, q, p) && Fresh(g, q, p) == Ok(e.value) && (q.workspaceId, p) in published
  }

  /** A lookup finds nothing or the fresh answer to some request with that key, under a pointer of its workspace. */
  ghost predicate FindsFresh(g: Gateway, published: Pointers, s: seq<Entry<Payload>>, key: string) {
    Find(s, key).Some? ==> exists q, p :: Answers(g, published, Find(s, key).value, q, p) && KeyOf(g, q, p) == key
  }

  lemma {:induction false} CacheHoldsFreshAnswers(g: Gateway, published: Pointers, calls: seq<Call>, key: string)
    requires Carried(published, calls)
    ensures FindsFresh(g, published, After(g, calls), key)
  {
    if calls != [] {
      var front, last := calls[..|calls| - 1], calls[|calls| - 1];
      assert last in calls && forall c | c in front :: c in calls;
      CacheHoldsFreshAnswers(g, published, front, key);
      StepKeepsFresh(g, published, After(g, front), last, key);
    }
  }

  lemma StepKeepsFresh(g: Gateway, published: Pointers, s: seq<Entry<Payload>>, c: Call, key: string)
    requires FindsFresh(g, published, s, key) && (c.q.workspaceId, c.p) in published
    ensures FindsFresh(g, published, Answered(g, s, c).0, key)
  {
    var k := KeyOf(g, c.q, c.p);
    var (left, hit) := Looked(g.config, s, k, c.lookedAt);
    if Find(s, k).Some? { FindWithout(s, {k}, key); }
    assert FindsFresh(g, published, left, key);
    var answer := Fresh(g, c.q, c.p);
    if hit.None? && answer.Ok? && g.config.enabled {
      FindEvicted(g.config, left, key);
      FindStored(g.config, left, k, answer.value, c.storedAt, key);
      if k == key {
        assert Answers(g, published, Entry(k, answer.value, c.storedAt + g.config.Ttl()), c.q, c.p);
      }
    }
  }

  /** Requests with the same key fields belong to one workspace, agree on the ids and are executed alike. */
  lemma SameKey(g: Gateway, q: Request, p: Option<Pointer>, q': Request, p': Option<Pointer>)
    requires Injective(g.dump) && KeyOf(g, q, p) == KeyOf(g, q', p')
    ensures q.workspaceId == q'.workspaceId && SameIds(p, p') && Fresh(g, q', p) == Fresh(g, q, p)
  {
    assert KeyFieldsOf(g, q, p) == KeyFieldsOf(g, q', p');
    assert ExecutionOf(g, q) == ExecutionOf(g, q');
  }

  /** A hit is fresh when the engine answers alike for the pointers the key cannot tell apart. */
  lemma DeterminedAnswerIsFresh(g: Gateway, published: Pointers, calls: seq<Call>, c: Call)
    requires Injective(g.dump) && KeyDetermines(g, published)
    requires Carried(published, calls) && (c.q.workspaceId, c.p) in published
    ensures Answered(g, After(g, calls), c).1 == Fresh(g, c.q, c.p)
  {
    var s, key := After(g, calls), KeyOf(g, c.q, c.p);
    var hit := Looked(g.config, s, key, c.lookedAt).1;
    if hit.Some? {
      CacheHoldsFreshAnswers(g, published, calls, key);
      var q, p :| Answers(g, published, Find(s, key).value, q, p) && KeyOf(g, q, p) == key;
      SameKey(g, q, p, c.q, c.p);
      assert Fresh(g, c.q, c.p) == Fresh(g, c.q, p);
    }
  }

  /** The cache refines recomputation: for every engine, when snapshot and build id identify the pointers the calls
      find, every answer, hit or miss, is the fresh filtered and masked result. */
  lemma AnswerIsFresh(g: Gateway, published: Pointers, calls: seq<Call>, c: Call)
    requires Injective(g.dump) && IdsIdentify(published)
    requires Carried(published, calls) && (c.q.workspaceId, c.p) in published
    ensures Answered(g, After(g, calls), c).1 == Fresh(g, c.q, c.p)
  {
    DeterminedAnswerIsFresh(g, published, calls, c);
  }

  /** Two pointers of one build with different models: the second request is answered from the first. */
  lemma StaleAnswer(g: Gateway, q: Request, p: Option<Pointer>, p': Option<Pointer>)
    requires g.config.enabled && Fresh(g, q, p).Ok? && SameIds(p, p')
    ensures Answered(g, After(g, [Call(q, p, 0.0, 0.0)]), Call(q, p', 0.0, 0.0)).1 == Fresh(g, q, p)
  {
    var key, value := KeyOf(g, q, p), Fresh(g, q, p).value;
    assert [Call(q, p, 0.0, 0.0)][..0] == [];
    assert After(g, [Call(q, p, 0.0, 0.0)]) == Stored(g.config, [], key, value, 0.0);
    FindStored(g.config, [], key, value, 0.0, key);
  }

  /** On every run over these pointers every request is answered as without a cache. */
  ghost predicate Refines(g: Gateway, published: Pointers) {
    forall calls, c: Call | Carried(published, calls) && (c.q.workspaceId, c.p) in published ::
      Answered(g, After(g, calls), c).1 == Fresh(g, c.q, c.p)
  }

  /** For one engine that is so exactly when the cache is off or the engine ignores what the key leaves out. */
  lemma RefinesRecomputationIff(g: Gateway, published: Pointers)
    requires Injective(g.dump)
    ensures Refines(g, published) <==> !g.config.enabled || KeyDetermines(g, published)
  {
    if KeyDetermines(g, published) {
      forall calls, c: Call | Carried(published, calls) && (c.q.workspaceId, c.p) in published
        ensures Answered(g, After(g, calls), c).1 == Fresh(g, c.q, c.p)
      {
        DeterminedAnswerIsFresh(g, published, calls, c);
      }
    }
    if g.config.enabled && Refines(g, published) {
      forall q: Request, p, p' | (q.workspaceId, p) in published && (q.workspaceId, p') in published
                        && SameIds(p, p') && Fresh(g, q, p).Ok?
        ensures Fresh(g, q, p') == Fresh(g, q, p)
      {
        StaleAnswer(g, q, p, p');
        var calls, c := [Call(q, p, 0.0, 0.0)], Call(q, p', 0.0, 0.0);
        assert Carried(published, calls);
        assert Answered(g, After(g, calls), c).1 == Fresh(g, c.q, c.p);
      }
    }
  }

  /** An engine that has the gold view of one pointer only. */
  function Serving(p: Option<Pointer>): (Execution, Option<Pointer>) -> Result<ResultSet> {
    (e: Execution, x: Option<Pointer>) => if x == p then Ok(ResultSet([], [])) else Err("query_error")
  }

  /** Any two pointers the key cannot tell apart make that engine answer stale: a request under the first is followed
      by one under the second, which is given the rows of the first. */
  lemma ModelNameGoesStale(g: Gateway, q: Request, p: Option<Pointer>, p': Option<Pointer>)
    requires g.config.enabled && SameIds(p, p') && p != p'
    ensures var h := g.(execute := Serving(p));
            Answered(h, After(h, [Call(q, p, 0.0, 0.0)]), Call(q, p', 0.0, 0.0)).1.Ok? && Fresh(h, q, p').Err?
  {
    StaleAnswer(g.(execute := Serving(p)), q, p, p');
  }

  lemma StalePointerRefutes(g: Gateway, published: Pointers, w: string, p: Option<Pointer>, p': Option<Pointer>)
    requires g.config.enabled && (w, p) in published && (w, p') in published && SameIds(p, p') && p != p'
    ensures !Refines(g.(execute := Serving(p)), published)
  {
    var q := Request(w, "", Null, Null, "", [], None, map[], 0, 0, Null);
    var h, calls, c := g.(execute := Serving(p)), [Call(q, p, 0.0, 0.0)], Call(q, p', 0.0, 0.0);
    ModelNameGoesStale(g, q, p, p');
    assert Carried(published, calls) && (c.q.workspaceId, c.p) in published;
    assert Answered(h, After(h, calls), c).1 != Fresh(h, c.q, c.p);
  }

  /** For every engine the cache refines recomputation exactly when it is off or the pointers published for a workspace
      are identified by snapshot and build id: the key does not hold the model name. */
  lemma RefinesForEveryEngineIff(g: Gateway, published: Pointers)
    requires Injective(g.dump)
    ensures (forall execute :: Refines(g.(execute := execute), published))
       <==> !g.config.enabled || IdsIdentify(published)
  {
    if !g.config.enabled || IdsIdentify(published) {
      forall execute ensures Refines(g.(execute := execute), published) {
        RefinesRecomputationIff(g.(execute := execute), published);
      }
    }
    if g.config.enabled && forall execute :: Refines(g.(execute := execute), published) {
      forall w, p, p' | (w, p) in published && (w, p') in published && SameIds(p, p') ensures p == p' {
        if p != p' {
          StalePointerRefutes(g, published, w, p, p');
        }
      }
    }
  }
}
