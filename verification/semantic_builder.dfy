/** backend/workers/semantic_builder.py: a manifest candidate bootstrapped from catalog profiles. */
module SemanticBuilder {
  import opened Sequences
  import opened Text
  import opened Semantic

  const MAX_ATTRIBUTES_PER_ENTITY := 40

  /** A catalog row: schemaColumns is profile["schema_columns"]. */
  datatype Dataset = Dataset(datasetId: string, logicalName: string, schemaColumns: Json)

  // ----- names -----

  function SafeChar(c: char): char {
    if IsIdentChar(c) then c else '_'
  }

  /** _safe_identifier; lower is str.lower, of which nothing is assumed */
  function SafeIdentifier(value: string, lower: string -> string): (r: string)
    ensures IsIdent(r)
  {
    var normalized := Mapped(SafeChar, lower(Strip(value)));
    MappedAt(SafeChar, lower(Strip(value)));
    if normalized == [] then "entity"
    else if '0' <= normalized[0] <= '9' then "e_" + normalized
    else normalized
  }

  /** base, base_2, base_3, .. */
  function Candidate(base: string, n: nat): string {
    if n == 0 then base else base + "_" + Decimal(n + 1)
  }

  lemma CandidateInjective(base: string, m: nat, n: nat)
    requires Candidate(base, m) == Candidate(base, n)
    ensures m == n
  {
    var k := |base| + 1;
    if m > 0 && n > 0 {
      assert Candidate(base, m)[k..] == Decimal(m + 1) && Candidate(base, n)[k..] == Decimal(n + 1);
      DecimalRoundTrip(m + 1);
      DecimalRoundTrip(n + 1);
    } else {
      assert |Candidate(base, m)| == |Candidate(base, n)|;
    }
  }

  ghost function Tried(base: string, n: nat): set<string> {
    if n == 0 then {} else Tried(base, n - 1) + {Candidate(base, n - 1)}
  }

  lemma {:induction false} TriedFacts(base: string, m: nat, n: nat)
    requires m <= n
    ensures Candidate(base, n) !in Tried(base, m)
  {
    if m > 0 {
      TriedFacts(base, m - 1, n);
      if Candidate(base, m - 1) == Candidate(base, n) { CandidateInjective(base, m - 1, n); }
    }
  }

  /** Of the untried ids fewer and fewer are taken, because candidates never repeat: the search must end. */
  lemma FewerTaken(base: string, existing: set<string>, n: nat)
    requires Candidate(base, n) in existing
    ensures existing - Tried(base, n + 1) < existing - Tried(base, n)
  {
    TriedFacts(base, n, n);
    assert Candidate(base, n) in existing - Tried(base, n);
  }

  /** The first candidate from number n on that is not taken. */
  function FirstFree(base: string, existing: set<string>, n: nat): string
    decreases existing - Tried(base, n)
  {
    if Candidate(base, n) in existing then FewerTaken(base, existing, n); FirstFree(base, existing, n + 1)
    else Candidate(base, n)
  }

  method UniqueEntityId(base: string, existing: set<string>) returns (candidate: string, grown: set<string>)
    ensures candidate == FirstFree(base, existing, 0) && candidate !in existing
    ensures grown == existing + {candidate}
  {
    candidate := base;
    var suffix := 1;
    while candidate in existing
      invariant suffix >= 1 && candidate == Candidate(base, suffix - 1)
      invariant FirstFree(base, existing, suffix - 1) == FirstFree(base, existing, 0)
      decreases existing - Tried(base, suffix - 1)
    {
      FewerTaken(base, existing, suffix - 1);
      suffix := suffix + 1;
      candidate := base + "_" + Decimal(suffix);
    }
    grown := existing + {candidate};
  }

  /** The id found is new, is the base or the base with a numeric suffix, and no earlier candidate was free. */
  lemma {:induction false} FirstFreeFacts(base: string, existing: set<string>, n: nat) returns (k: nat)
    ensures k >= n && FirstFree(base, existing, n) == Candidate(base, k) && Candidate(base, k) !in existing
    ensures forall i | n <= i < k :: Candidate(base, i) in existing
    decreases existing - Tried(base, n)
  {
    if Candidate(base, n) in existing {
      FewerTaken(base, existing, n);
      k := FirstFreeFacts(base, existing, n + 1);
    } else {
      k := n;
    }
  }

  lemma CandidateIdent(base: string, n: nat)
    requires IsIdent(base)
    ensures IsIdent(Candidate(base, n))
  {
    var c := Candidate(base, n);
    if n > 0 {
      var d := Decimal(n + 1);
      forall k | 0 <= k < |c| ensures IsIdentChar(c[k]) {
        if k < |base| { assert c[k] == base[k]; } else if k > |base| { assert c[k] == d[k - |base| - 1]; }
      }
    }
  }

  // ----- columns -----

  function TidyTexts(items: seq<Json>): seq<string> {
    if items == [] then []
    else
      var front, text := TidyTexts(items[..|items| - 1]), Strip(TextOf(items[|items| - 1]));
      if text == "" then front else front + [text]
  }

  /** _string_list */
  function StringList(value: Json): seq<string> {
    if value.List? then SortedSet(TidyTexts(value.items)) else []
  }

  predicate IsTidy(s: string) {
    s != "" && IsStripped(s)
  }

  lemma {:induction false} TidyTextsFacts(items: seq<Json>)
    ensures forall s | s in TidyTexts(items) :: IsTidy(s)
  {
    if items != [] { TidyTextsFacts(items[..|items| - 1]); }
  }

  lemma StringListTidy(value: Json)
    ensures forall s | s in StringList(value) :: IsTidy(s)
  {
    if value.List? {
      SortedSetFacts(TidyTexts(value.items));
      TidyTextsFacts(value.items);
    }
  }

  predicate EndsWith(s: string, suffix: string) {
    |s| >= |suffix| && s[|s| - |suffix|..] == suffix
  }

  /** {column.lower(): column}["id"]: the last column that reads id */
  function LastNamedId(columns: seq<string>, lower: string -> string): Option<string> {
    if columns == [] then None
    else if lower(columns[|columns| - 1]) == "id" then Some(columns[|columns| - 1])
    else LastNamedId(columns[..|columns| - 1], lower)
  }

  function FirstEndingId(columns: seq<string>, lower: string -> string): Option<string> {
    if columns == [] then None
    else if EndsWith(lower(columns[0]), "_id") then Some(columns[0])
    else FirstEndingId(columns[1..], lower)
  }

  /** _pick_primary_key */
  function PickPrimaryKey(columns: seq<string>, lower: string -> string): (r: string)
    ensures columns == [] ==> r == "id"
    ensures columns != [] ==> r in columns
  {
    if columns == [] then "id"
    else
      NamedIdIsColumn(columns, lower);
      EndingIdIsColumn(columns, lower);
      if LastNamedId(columns, lower).Some? then LastNamedId(columns, lower).value
      else if FirstEndingId(columns, lower).Some? then FirstEndingId(columns, lower).value
      else columns[0]
  }

  lemma {:induction false} NamedIdIsColumn(columns: seq<string>, lower: string -> string)
    ensures LastNamedId(columns, lower).Some? ==> LastNamedId(columns, lower).value in columns
  {
    if columns != [] { NamedIdIsColumn(columns[..|columns| - 1], lower); }
  }

  lemma {:induction false} EndingIdIsColumn(columns: seq<string>, lower: string -> string)
    ensures FirstEndingId(columns, lower).Some? ==> FirstEndingId(columns, lower).value in columns
  {
    if columns != [] { EndingIdIsColumn(columns[1..], lower); }
  }

  function Without(columns: seq<string>, key: string): (r: seq<string>)
    ensures forall c :: c in r <==> c in columns && c != key
  {
    if columns == [] then []
    else
      var front, last := Without(columns[..|columns| - 1], key), columns[|columns| - 1];
      assert columns == columns[..|columns| - 1] + [last];
      if last == key then front else front + [last]
  }

  function Take<T>(s: seq<T>, n: nat): seq<T> {
    if n < |s| then s[..n] else s
  }

  // ----- entities, metrics, joins -----

  function EntityFor(d: Dataset, id: string, lower: string -> string): Entity {
    var columns := StringList(d.schemaColumns);
    var key := PickPrimaryKey(columns, lower);
    Entity(id, d.datasetId, key, Take(SortedSet(Without(columns, key)), MAX_ATTRIBUTES_PER_ENTITY))
  }

  function BaseId(d: Dataset, lower: string -> string): string {
    SafeIdentifier(if d.logicalName != "" then d.logicalName else d.datasetId, lower)
  }

  function Entities(datasets: seq<Dataset>, lower: string -> string): (r: seq<Entity>)
    ensures |r| == |datasets|
  {
    if datasets == [] then []
    else
      var front, d := Entities(datasets[..|datasets| - 1], lower), datasets[|datasets| - 1];
      front + [EntityFor(d, FirstFree(BaseId(d, lower), EntityIds(front), 0), lower)]
  }

  function CountMetric(e: Entity): Metric {
    Metric(e.id + "_count", e.id, "count", e.primaryKey, "count(" + e.primaryKey + ")")
  }

  /** left's primary key is a column of right */
  predicate Qualifies(left: Entity, right: Entity) {
    left.id != right.id && left.primaryKey in right.attributes
  }

  function InferredId(left: Entity, right: Entity): string {
    right.id + "_to_" + left.id
  }

  function InferredJoin(left: Entity, right: Entity): Join {
    Join(InferredId(left, right), right.id, left.id, left.primaryKey, left.primaryKey, "left")
  }

  function JoinIds(js: seq<Join>): set<string> {
    set j | j in js :: j.id
  }

  lemma JoinIdsAppend(js: seq<Join>, j: Join)
    ensures JoinIds(js + [j]) == JoinIds(js) + {j.id}
  {
    KeysAppend(JoinId, js, j);
    assert JoinIds(js + [j]) == Keys(JoinId, js + [j]) && JoinIds(js) == Keys(JoinId, js);
  }

  /** A pair adds its join unless it does not qualify or its id is already taken. */
  function AddJoin(js: seq<Join>, left: Entity, right: Entity): seq<Join> {
    if !Qualifies(left, right) || InferredId(left, right) in JoinIds(js) then js
    else js + [InferredJoin(left, right)]
  }

  /** The joins found in a list of (left, right) pairs. */
  function Inferred(pairs: seq<(Entity, Entity)>): seq<Join> {
    if pairs == [] then []
    else AddJoin(Inferred(pairs[..|pairs| - 1]), pairs[|pairs| - 1].0, pairs[|pairs| - 1].1)
  }

  function PairsWith(left: Entity, rights: seq<Entity>): seq<(Entity, Entity)> {
    if rights == [] then [] else PairsWith(left, rights[..|rights| - 1]) + [(left, rights[|rights| - 1])]
  }

  /** The pairs in the order of the nested loops. */
  function Pairs(lefts: seq<Entity>, rights: seq<Entity>): seq<(Entity, Entity)> {
    if lefts == [] then [] else Pairs(lefts[..|lefts| - 1], rights) + PairsWith(lefts[|lefts| - 1], rights)
  }

  method InferJoins(entities: seq<Entity>) returns (r: seq<Join>)
    ensures r == SortBy(JoinId, Inferred(Pairs(entities, entities)))
  {
    var joins: seq<Join> := [];
    var seenIds: set<string> := {};
    for i := 0 to |entities|
      invariant joins == Inferred(Pairs(entities[..i], entities)) && seenIds == JoinIds(joins)
    {
      var left := entities[i];
      ghost var before := Pairs(entities[..i], entities);
      assert before + PairsWith(left, entities[..0]) == before;
      for j := 0 to |entities|
        invariant joins == Inferred(before + PairsWith(left, entities[..j])) && seenIds == JoinIds(joins)
      {
        var right := entities[j];
        InferredNext(before, left, entities, j);
        if left.id != right.id && left.primaryKey in right.attributes {
          var joinId := right.id + "_to_" + left.id;
          if joinId !in seenIds {
            var join := Join(joinId, right.id, left.id, left.primaryKey, left.primaryKey, "left");
            JoinIdsAppend(joins, join);
            seenIds := seenIds + {joinId};
            joins := joins + [join];
          }
        }
      }
      NextRow(entities, i);
    }
    assert entities[..|entities|] == entities;
    r := SortBy(JoinId, joins);
  }

  lemma InferredNext(before: seq<(Entity, Entity)>, left: Entity, rights: seq<Entity>, j: nat)
    requires j < |rights|
    ensures Inferred(before + PairsWith(left, rights[..j + 1]))
         == AddJoin(Inferred(before + PairsWith(left, rights[..j])), left, rights[j])
  {
    assert rights[..j + 1][..j] == rights[..j];
    ConcatFront(before, PairsWith(left, rights[..j + 1]));
  }

  lemma NextRow(entities: seq<Entity>, i: nat)
    requires i < |entities|
    ensures Pairs(entities[..i + 1], entities)
         == Pairs(entities[..i], entities) + PairsWith(entities[i], entities[..|entities|])
  {
    assert entities[..i + 1][..i] == entities[..i] && entities[..|entities|] == entities;
  }

  // ----- the candidate -----

  function CandidateJson(workspaceId: string, es: seq<Entity>, ms: seq<Metric>, js: seq<Join>): map<string, Json> {
    ManifestJson(Manifest(workspaceId, es, ms, js))
  }

  /** What build_semantic_manifest_candidate validates. */
  function Built(workspaceId: string, datasets: seq<Dataset>, lower: string -> string): Result<Manifest> {
    if datasets == [] then Err("semantic_bootstrap_requires_catalog_datasets")
    else
      var es := Entities(datasets, lower);
      Validated(CandidateJson(workspaceId, es, Mapped(CountMetric, es),
                              SortBy(JoinId, Inferred(Pairs(es, es)))), Some(workspaceId))
  }

  method BuildSemanticManifestCandidate(workspaceId: string, datasets: seq<Dataset>, lower: string -> string)
    returns (r: Result<Manifest>)
    ensures r == Built(workspaceId, datasets, lower)
  {
    if datasets == [] { return Err("semantic_bootstrap_requires_catalog_datasets"); }
    var entities: seq<Entity> := [];
    var existing: set<string> := {};
    for i := 0 to |datasets|
      invariant entities == Entities(datasets[..i], lower) && existing == EntityIds(entities)
    {
      assert datasets[..i + 1][..i] == datasets[..i];
      var entityId;
      entityId, existing := UniqueEntityId(BaseId(datasets[i], lower), existing);
      entities := entities + [EntityFor(datasets[i], entityId, lower)];
    }
    assert datasets[..|datasets|] == datasets;
    var metrics := Mapped(CountMetric, entities);
    var joins := InferJoins(entities);
    r := ValidateSemanticManifest(CandidateJson(workspaceId, entities, metrics, joins), Some(workspaceId));
  }

  // ----- ids are pairwise distinct -----

  lemma {:induction false} EntitiesDistinct(datasets: seq<Dataset>, lower: string -> string)
    ensures DistinctKeys(EntityId, Entities(datasets, lower))
    ensures forall e | e in Entities(datasets, lower) :: IsIdent(e.id)
  {
    if datasets != [] {
      var front, d := Entities(datasets[..|datasets| - 1], lower), datasets[|datasets| - 1];
      EntitiesDistinct(datasets[..|datasets| - 1], lower);
      var k := FirstFreeFacts(BaseId(d, lower), EntityIds(front), 0);
      CandidateIdent(BaseId(d, lower), k);
      forall i | 0 <= i < |front| ensures front[i].id != Candidate(BaseId(d, lower), k) {
        assert front[i] in front;
      }
    }
  }

  /** Each dataset gives one entity, in order. */
  lemma {:induction false} EntityAt(datasets: seq<Dataset>, lower: string -> string, i: nat)
    requires i < |datasets|
    ensures var e := Entities(datasets, lower)[i]; e == EntityFor(datasets[i], e.id, lower)
  {
    if i < |datasets| - 1 { EntityAt(datasets[..|datasets| - 1], lower, i); }
  }

  lemma MetricsDistinct(es: seq<Entity>)
    requires DistinctKeys(EntityId, es)
    ensures DistinctKeys(MetricId, Mapped(CountMetric, es))
  {
    MappedAt(CountMetric, es);
    forall i, j | 0 <= i < j < |es| ensures CountMetric(es[i]).id != CountMetric(es[j]).id {
      var a, b := es[i].id, es[j].id;
      assert EntityId(es[i]) != EntityId(es[j]);
      SuffixDistinct(a, b, "_count");
    }
  }

  lemma SuffixDistinct(a: string, b: string, suffix: string)
    requires a != b
    ensures a + suffix != b + suffix
  {
    if |a| == |b| {
      var i :| 0 <= i < |a| && a[i] != b[i];
      assert (a + suffix)[i] != (b + suffix)[i];
    }
  }

  lemma {:induction false} InferredDistinct(pairs: seq<(Entity, Entity)>)
    ensures DistinctKeys(JoinId, Inferred(pairs))
  {
    if pairs != [] {
      var front := Inferred(pairs[..|pairs| - 1]);
      InferredDistinct(pairs[..|pairs| - 1]);
      forall i | 0 <= i < |front| ensures front[i].id in JoinIds(front) { assert front[i] in front; }
    }
  }

  // ----- which joins are inferred -----

  /** The pair at k qualifies and no earlier qualifying pair has its join id. */
  ghost predicate Kept(pairs: seq<(Entity, Entity)>, k: nat)
    requires k < |pairs|
  {
    && Qualifies(pairs[k].0, pairs[k].1)
    && forall i | 0 <= i < k && Qualifies(pairs[i].0, pairs[i].1) ::
         InferredId(pairs[i].0, pairs[i].1) != InferredId(pairs[k].0, pairs[k].1)
  }

  lemma {:induction false} InferredIsKept(pairs: seq<(Entity, Entity)>, j: Join) returns (k: nat)
    requires j in Inferred(pairs)
    ensures k < |pairs| && Kept(pairs, k) && j == InferredJoin(pairs[k].0, pairs[k].1)
  {
    var n := |pairs| - 1;
    var front := pairs[..n];
    if j in Inferred(front) {
      k := InferredIsKept(front, j);
    } else {
      k := n;
      forall i | 0 <= i < n && Qualifies(pairs[i].0, pairs[i].1)
        ensures InferredId(pairs[i].0, pairs[i].1) in JoinIds(Inferred(front))
      {
        assert front[i] == pairs[i];
        QualifyingIdTaken(front, i);
      }
    }
  }

  /** Every qualifying pair's join id is taken, by its own join or by an earlier one. */
  lemma {:induction false} QualifyingIdTaken(pairs: seq<(Entity, Entity)>, k: nat)
    requires k < |pairs| && Qualifies(pairs[k].0, pairs[k].1)
    ensures InferredId(pairs[k].0, pairs[k].1) in JoinIds(Inferred(pairs))
  {
    var n := |pairs| - 1;
    var before, after := Inferred(pairs[..n]), Inferred(pairs);
    if k < n {
      QualifyingIdTaken(pairs[..n], k);
      var j :| j in before && j.id == InferredId(pairs[k].0, pairs[k].1);
      assert j in after;
    } else if InferredId(pairs[n].0, pairs[n].1) in JoinIds(before) {
      assert after == before;
    } else {
      assert InferredJoin(pairs[n].0, pairs[n].1) in after;
    }
  }

  lemma {:induction false} PairsWithContents(left: Entity, rights: seq<Entity>, l: Entity, r: Entity)
    ensures (l, r) in PairsWith(left, rights) <==> l == left && r in rights
  {
    if rights != [] {
      PairsWithContents(left, rights[..|rights| - 1], l, r);
      FrontMultiset(rights);
    }
  }

  /** The nested loops look at every ordered pair. */
  lemma {:induction false} PairsContents(lefts: seq<Entity>, rights: seq<Entity>, l: Entity, r: Entity)
    ensures (l, r) in Pairs(lefts, rights) <==> l in lefts && r in rights
  {
    if lefts != [] {
      PairsContents(lefts[..|lefts| - 1], rights, l, r);
      PairsWithContents(lefts[|lefts| - 1], rights, l, r);
      FrontMultiset(lefts);
    }
  }

  ghost predicate Related(es: seq<Entity>, left: Entity, right: Entity) {
    left in es && right in es && Qualifies(left, right)
  }

  /** An inferred join goes from a column of its left entity to the primary key of its right entity. */
  lemma InferredJoinIsForeignKey(es: seq<Entity>, j: Join) returns (left: Entity, right: Entity)
    requires j in Inferred(Pairs(es, es))
    ensures Related(es, left, right) && j == InferredJoin(left, right)
    ensures j.leftEntity == right.id && j.leftKey in right.attributes
    ensures j.rightEntity == left.id && j.rightKey == left.primaryKey
  {
    var k := InferredIsKept(Pairs(es, es), j);
    left, right := Pairs(es, es)[k].0, Pairs(es, es)[k].1;
    assert Pairs(es, es)[k] == (left, right);
    PairsContents(es, es, left, right);
  }

  /** Each related pair's id is inferred, though perhaps for another pair. */
  lemma RelatedIdInferred(es: seq<Entity>, left: Entity, right: Entity) returns (j: Join)
    requires Related(es, left, right)
    ensures j in Inferred(Pairs(es, es)) && j.id == InferredId(left, right)
  {
    var pairs := Pairs(es, es);
    PairsContents(es, es, left, right);
    var k :| 0 <= k < |pairs| && pairs[k] == (left, right);
    QualifyingIdTaken(pairs, k);
    j :| j in Inferred(pairs) && j.id == InferredId(left, right);
  }

  lemma SameIdSameEntity(es: seq<Entity>, a: Entity, b: Entity)
    requires DistinctKeys(EntityId, es) && a in es && b in es && a.id == b.id
    ensures a == b
  {
    var i :| 0 <= i < |es| && es[i] == a;
    var j :| 0 <= j < |es| && es[j] == b;
    assert EntityId(es[i]) == EntityId(es[j]);
  }

  lemma SameJoinId(es: seq<Entity>, a: Join, b: Join)
    requires a in Inferred(Pairs(es, es)) && b in Inferred(Pairs(es, es)) && a.id == b.id
    ensures a == b
  {
    var js := Inferred(Pairs(es, es));
    InferredDistinct(Pairs(es, es));
    var i :| 0 <= i < |js| && js[i] == a;
    var j :| 0 <= j < |js| && js[j] == b;
    assert JoinId(js[i]) == JoinId(js[j]);
  }

  /** Every related pair keeps its own join exactly when no two related pairs share a concatenated id. */
  lemma EveryPairJoinedIff(es: seq<Entity>)
    requires DistinctKeys(EntityId, es)
    ensures (forall l, r | Related(es, l, r) :: InferredJoin(l, r) in Inferred(Pairs(es, es)))
       <==> (forall l, r, l', r' | Related(es, l, r) && Related(es, l', r') && InferredId(l, r) == InferredId(l', r') ::
               l == l' && r == r')
  {
    var js := Inferred(Pairs(es, es));
    if forall l, r | Related(es, l, r) :: InferredJoin(l, r) in js {
      forall l, r, l', r' | Related(es, l, r) && Related(es, l', r') && InferredId(l, r) == InferredId(l', r')
        ensures l == l' && r == r'
      {
        SameJoinId(es, InferredJoin(l, r), InferredJoin(l', r'));
        SameIdSameEntity(es, l, l');
        SameIdSameEntity(es, r, r');
      }
    }
    if forall l, r, l', r' | Related(es, l, r) && Related(es, l', r') && InferredId(l, r) == InferredId(l', r') ::
         l == l' && r == r' {
      forall l, r | Related(es, l, r) ensures InferredJoin(l, r) in js {
        var j := RelatedIdInferred(es, l, r);
        var l', r' := InferredJoinIsForeignKey(es, j);
      }
    }
  }

  // ----- the validator accepts the candidate -----

  /** What the validator makes of an entity: the dataset id is trimmed. */
  function Trimmed(e: Entity): Entity {
    e.(datasetId := Strip(e.datasetId))
  }

  predicate Bootable(e: Entity) {
    Strip(e.datasetId) != "" && IsIdent(e.primaryKey) && forall a | a in e.attributes :: IsIdent(a)
  }

  lemma TidyReads(s: string, field: string)
    requires IsTidy(s)
    ensures NormalizedId(Str(s), field).Ok? <==> IsIdent(s)
    ensures IsIdent(s) ==> NormalizedId(Str(s), field) == Ok(s)
  {
    StripFixed(s);
    if IsIdent(s) { IdentReads(s, field); }
    if MatchesIdPattern(s) { StrippedIdPattern(s); }
  }

  /** Each item reads exactly when it is an identifier, and then as itself. */
  lemma {:induction false} TidyTextsRead(xs: seq<string>, field: string)
    requires forall x | x in xs :: IsTidy(x)
    ensures NormalizedIds(Texts(xs).items, field).Ok? <==> forall x | x in xs :: IsIdent(x)
  {
    if xs != [] {
      var front, last := xs[..|xs| - 1], xs[|xs| - 1];
      assert Texts(xs).items[..|xs| - 1] == Texts(front).items;
      assert xs == front + [last];
      TidyTextsRead(front, field);
      TidyReads(last, field);
      assert (forall x | x in xs :: IsIdent(x)) <==> (forall x | x in front :: IsIdent(x)) && IsIdent(last);
    }
  }

  ghost predicate TidyEntity(e: Entity) {
    && IsIdent(e.id) && IsTidy(e.primaryKey)
    && StrictlySorted(Itself, e.attributes) && forall a | a in e.attributes :: IsTidy(a)
  }

  /** An entity row is accepted exactly when the entity is bootable. */
  lemma TidyEntityReads(index: nat, e: Entity)
    requires TidyEntity(e)
    ensures EntityRow(index, EntityJson(e), {}).Ok? <==> Bootable(e)
    ensures Bootable(e) ==> EntityRow(index, EntityJson(e), {}) == Ok(Trimmed(e))
  {
    EntityFields(e, Null);
    EntityFields(e, Str(""));
    EntityFields(e, List([], "[]"));
    IdentReads(e.id, "entity_id");
    TidyReads(e.primaryKey, "primary_key");
    TidyTextsRead(e.attributes, "attribute");
    if Bootable(e) {
      IdentsRead(e.attributes, "attribute");
      SortedSetFixed(e.attributes);
    }
  }

  lemma EntityForTidy(d: Dataset, id: string, lower: string -> string)
    requires IsIdent(id)
    ensures TidyEntity(EntityFor(d, id, lower))
  {
    var columns := StringList(d.schemaColumns);
    var key := PickPrimaryKey(columns, lower);
    StringListTidy(d.schemaColumns);
    var others := SortedSet(Without(columns, key));
    SortedSetFacts(Without(columns, key));
    assert IsTidy("id") by { StripFixed("id"); }
    var kept := Take(others, MAX_ATTRIBUTES_PER_ENTITY);
    forall a | a in kept ensures IsTidy(a) { assert a in others; }
  }

  lemma EntitiesTidy(datasets: seq<Dataset>, lower: string -> string)
    ensures forall e | e in Entities(datasets, lower) :: TidyEntity(e)
  {
    var es := Entities(datasets, lower);
    EntitiesDistinct(datasets, lower);
    forall e | e in es ensures TidyEntity(e) {
      var i :| 0 <= i < |es| && es[i] == e;
      EntityAt(datasets, lower, i);
      EntityForTidy(datasets[i], e.id, lower);
    }
  }

  /** The entity rows are accepted exactly when every entity is bootable. */
  lemma EntityRowsAccepted(es: seq<Entity>)
    requires DistinctKeys(EntityId, es) && forall e | e in es :: TidyEntity(e)
    ensures EntitiesOf(Rows(EntityJson, es)).Ok? <==> forall e | e in es :: Bootable(e)
    ensures (forall e | e in es :: Bootable(e)) ==>
              EntitiesOf(Rows(EntityJson, es)) == Ok(SortBy(EntityId, Mapped(Trimmed, es)))
  {
    var rows, xs := Rows(EntityJson, es), Mapped(Trimmed, es);
    MappedAt(Trimmed, es);
    EntityRowsReadable();
    forall i | 0 <= i < |es|
      ensures EntityRow(i, rows[i], {}).Ok? <==> Bootable(es[i])
      ensures Bootable(es[i]) ==> EntityRow(i, rows[i], {}) == Ok(xs[i])
    {
      TidyEntityReads(i, es[i]);
    }
    if forall e | e in es :: Bootable(e) {
      forall i, j | 0 <= i < j < |xs| ensures EntityId(xs[i]) != EntityId(xs[j]) {
        assert EntityId(es[i]) != EntityId(es[j]);
      }
      DistinctRowsReadBack(EntityRow, EntityId, rows, xs);
    } else {
      var e :| e in es && !Bootable(e);
      var i :| 0 <= i < |es| && es[i] == e;
      assert !Acceptable(EntityRow, EntityId, rows);
      CollectAccepts(EntityRow, EntityId, rows);
    }
  }

  lemma SortedEntityIds(es: seq<Entity>, e: Entity)
    requires e in es
    ensures e.id in EntityIds(SortBy(EntityId, Mapped(Trimmed, es)))
  {
    var xs := Mapped(Trimmed, es);
    MappedAt(Trimmed, es);
    SortContents(EntityId, xs);
    var i :| 0 <= i < |es| && es[i] == e;
    assert xs[i] in multiset(xs) && xs[i] in SortBy(EntityId, xs);
  }

  lemma CountMetricsAccepted(es: seq<Entity>, ids: set<string>)
    requires DistinctKeys(EntityId, es) && forall e | e in es :: IsIdent(e.id) && e.id in ids && Bootable(e)
    ensures MetricsOf(Rows(MetricJson, Mapped(CountMetric, es)), ids) == Ok(SortBy(MetricId, Mapped(CountMetric, es)))
  {
    var ms := Mapped(CountMetric, es);
    MappedAt(CountMetric, es);
    MetricsDistinct(es);
    MetricRowsReadable(ids);
    forall i | 0 <= i < |ms| ensures MetricReader(ids)(i, Rows(MetricJson, ms)[i], {}) == Ok(ms[i]) {
      assert es[i] in es;
      CountMetricNormal(es[i], ids);
      MetricReadsBack(ids, i, ms[i]);
    }
    DistinctRowsReadBack(MetricReader(ids), MetricId, Rows(MetricJson, ms), ms);
  }

  lemma CountMetricNormal(e: Entity, ids: set<string>)
    requires IsIdent(e.id) && e.id in ids && IsIdent(e.primaryKey)
    ensures MetricNormal(CountMetric(e), ids)
  {
    CallStripped("count", e.primaryKey);
    var id, suffix := CountMetric(e).id, "_count";
    forall k | 0 <= k < |id| ensures IsIdentChar(id[k]) {
      assert id[k] == if k < |e.id| then e.id[k] else suffix[k - |e.id|];
    }
  }

  lemma InferredJoinNormal(left: Entity, right: Entity, ids: set<string>)
    requires IsIdent(left.id) && IsIdent(right.id) && left.id in ids && right.id in ids && IsIdent(left.primaryKey)
    ensures JoinNormal(InferredJoin(left, right), ids)
  {
    var id, n := InferredId(left, right), |right.id|;
    forall k | 0 <= k < |id| ensures IsIdentChar(id[k]) {
      if k < n { assert id[k] == right.id[k]; }
      else if k >= n + 4 { assert id[k] == left.id[k - n - 4]; }
    }
  }

  lemma InferredJoinsAccepted(es: seq<Entity>, ids: set<string>)
    requires forall e | e in es :: IsIdent(e.id) && e.id in ids && Bootable(e)
    ensures var js := SortBy(JoinId, Inferred(Pairs(es, es))); JoinsOf(Rows(JoinJson, js), ids) == Ok(js)
  {
    var inferred := Inferred(Pairs(es, es));
    var js := SortBy(JoinId, inferred);
    InferredDistinct(Pairs(es, es));
    SortSorted(JoinId, inferred);
    SortContents(JoinId, inferred);
    forall j | j in js ensures JoinNormal(j, ids) {
      assert j in multiset(inferred);
      var left, right := InferredJoinIsForeignKey(es, j);
      InferredJoinNormal(left, right, ids);
    }
    JoinsReadBack(ids, js);
  }

  /** The manifest the bootstrap produces. */
  function Bootstrapped(workspaceId: string, datasets: seq<Dataset>, lower: string -> string): Manifest {
    var es := Entities(datasets, lower);
    Manifest(workspaceId, SortBy(EntityId, Mapped(Trimmed, es)), SortBy(MetricId, Mapped(CountMetric, es)),
             SortBy(JoinId, Inferred(Pairs(es, es))))
  }

  /** Given its entities are bootable the assembled rows are accepted: metrics and joins never fail. */
  lemma CandidateAssembles(workspaceId: string, datasets: seq<Dataset>, lower: string -> string)
    ensures var es := Entities(datasets, lower);
            var r := Assembled(workspaceId, Rows(EntityJson, es), Rows(MetricJson, Mapped(CountMetric, es)),
                               Rows(JoinJson, SortBy(JoinId, Inferred(Pairs(es, es)))));
            if forall e | e in es :: Bootable(e) then r == Ok(Bootstrapped(workspaceId, datasets, lower)) else r.Err?
  {
    var es := Entities(datasets, lower);
    EntitiesDistinct(datasets, lower);
    EntitiesTidy(datasets, lower);
    EntityRowsAccepted(es);
    if forall e | e in es :: Bootable(e) {
      var ids := EntityIds(SortBy(EntityId, Mapped(Trimmed, es)));
      forall e | e in es ensures e.id in ids { SortedEntityIds(es, e); }
      CountMetricsAccepted(es, ids);
      InferredJoinsAccepted(es, ids);
    }
  }

  /** Validating the dictionary of a manifest for its own workspace. */
  lemma CandidateReadsAs(m: Manifest)
    ensures var r := Validated(ManifestJson(m), Some(m.workspaceId));
            if m.workspaceId != "" && IsStripped(m.workspaceId)
            then r == Assembled(m.workspaceId, Rows(EntityJson, m.entities), Rows(MetricJson, m.metrics),
                                Rows(JoinJson, m.joins))
            else r.Err?
  {
    StripFixed("1");
    ManifestFields(m, Str(""));
    ManifestFields(m, List([], "[]"));
    if m.workspaceId != "" && IsStripped(m.workspaceId) { StripFixed(m.workspaceId); }
  }

  /** Bootstrap lands in the validator's language exactly when there are datasets, the workspace id is stripped
      and not blank, and every entity has a dataset id and identifier columns among those it keeps. */
  lemma BootstrapAcceptedIff(workspaceId: string, datasets: seq<Dataset>, lower: string -> string)
    ensures Built(workspaceId, datasets, lower).Ok? <==>
              && datasets != [] && workspaceId != "" && IsStripped(workspaceId)
              && forall e | e in Entities(datasets, lower) :: Bootable(e)
    ensures Built(workspaceId, datasets, lower).Ok? ==>
              Built(workspaceId, datasets, lower) == Ok(Bootstrapped(workspaceId, datasets, lower))
  {
    var es := Entities(datasets, lower);
    CandidateReadsAs(Manifest(workspaceId, es, Mapped(CountMetric, es), SortBy(JoinId, Inferred(Pairs(es, es)))));
    CandidateAssembles(workspaceId, datasets, lower);
  }

  /** When every column name is an identifier and no dataset id is blank, the bootstrap cannot fail. */
  lemma IdentifierColumnsSuffice(workspaceId: string, datasets: seq<Dataset>, lower: string -> string)
    requires datasets != [] && workspaceId != "" && IsStripped(workspaceId)
    requires forall d | d in datasets :: Strip(d.datasetId) != ""
    requires forall d, c | d in datasets && c in StringList(d.schemaColumns) :: IsIdent(c)
    ensures Built(workspaceId, datasets, lower) == Ok(Bootstrapped(workspaceId, datasets, lower))
    ensures |Bootstrapped(workspaceId, datasets, lower).entities| == |datasets|
  {
    var es := Entities(datasets, lower);
    forall e | e in es ensures Bootable(e) {
      var i :| 0 <= i < |es| && es[i] == e;
      EntityAt(datasets, lower, i);
      IdentifierColumnsBoot(datasets[i], e.id, lower);
    }
    BootstrapAcceptedIff(workspaceId, datasets, lower);
    SortContents(EntityId, Mapped(Trimmed, es));
    SameLength(SortBy(EntityId, Mapped(Trimmed, es)), Mapped(Trimmed, es));
  }

  /** The key and the kept attributes are columns, apart from the default key of a dataset without columns. */
  lemma EntityColumns(d: Dataset, id: string, lower: string -> string)
    ensures var e, columns := EntityFor(d, id, lower), StringList(d.schemaColumns);
            && (e.primaryKey in columns || (columns == [] && e.primaryKey == "id"))
            && forall a | a in e.attributes :: a in columns && a != e.primaryKey
  {
    var columns := StringList(d.schemaColumns);
    var key := PickPrimaryKey(columns, lower);
    var others := SortedSet(Without(columns, key));
    SortedSetFacts(Without(columns, key));
    forall a | a in Take(others, MAX_ATTRIBUTES_PER_ENTITY) ensures a in columns && a != key { assert a in others; }
  }

  lemma IdentifierColumnsBoot(d: Dataset, id: string, lower: string -> string)
    requires Strip(d.datasetId) != "" && forall c | c in StringList(d.schemaColumns) :: IsIdent(c)
    ensures Bootable(EntityFor(d, id, lower))
  {
    EntityColumns(d, id, lower);
  }

  // ----- a catalog whose joins collide -----

  lemma {:induction false} PairsWithAt(left: Entity, rights: seq<Entity>)
    ensures |PairsWith(left, rights)| == |rights|
    ensures forall j | 0 <= j < |rights| :: PairsWith(left, rights)[j] == (left, rights[j])
  {
    if rights != [] { PairsWithAt(left, rights[..|rights| - 1]); }
  }

  /** The pairs of the first n entities come before all others. */
  lemma {:induction false} PairsSplit(lefts: seq<Entity>, rights: seq<Entity>, n: nat)
    requires n <= |lefts|
    ensures Pairs(lefts[..n], rights) <= Pairs(lefts, rights)
  {
    if n == |lefts| {
      assert lefts[..n] == lefts;
    } else {
      assert lefts[..|lefts| - 1][..n] == lefts[..n];
      PairsSplit(lefts[..|lefts| - 1], rights, n);
    }
  }

  lemma LeftEntity(lefts: seq<Entity>, rights: seq<Entity>, k: nat)
    requires k < |Pairs(lefts, rights)|
    ensures Pairs(lefts, rights)[k].0 in lefts
  {
    assert Pairs(lefts, rights)[k] in Pairs(lefts, rights);
    PairsContents(lefts, rights, Pairs(lefts, rights)[k].0, Pairs(lefts, rights)[k].1);
  }

  lemma NotAmongFirst(es: seq<Entity>, i: nat, j: nat, e: Entity)
    requires DistinctKeys(EntityId, es) && i < j < |es| && e in es[..i + 1]
    ensures e.id != es[j].id
  {
    var n :| 0 <= n < i + 1 && es[..i + 1][n] == e;
    assert EntityId(es[n]) != EntityId(es[j]);
  }

  /** The pairs of the first entities are not those of a later one. */
  lemma FirstPairsDiffer(es: seq<Entity>, i: nat, j: nat, k: nat)
    requires DistinctKeys(EntityId, es) && i < j < |es| && k < |Pairs(es[..i + 1], es)| <= |Pairs(es, es)|
    ensures Pairs(es, es)[k].0.id != es[j].id
  {
    PairsSplit(es, es, i + 1);
    assert Pairs(es[..i + 1], es)[k] == Pairs(es, es)[k];
    LeftEntity(es[..i + 1], es, k);
    NotAmongFirst(es, i, j, Pairs(es, es)[k].0);
  }

  lemma PairPosition(es: seq<Entity>, i: nat, r: Entity) returns (m: nat)
    requires i < |es| && r in es
    ensures m < |Pairs(es[..i + 1], es)| <= |Pairs(es, es)| && Pairs(es, es)[m] == (es[i], r)
  {
    PairsSplit(es, es, i + 1);
    assert es[i] == es[..i + 1][i];
    PairsContents(es[..i + 1], es, es[i], r);
    m :| 0 <= m < |Pairs(es[..i + 1], es)| && Pairs(es[..i + 1], es)[m] == (es[i], r);
  }

  /** Of two pairs with one join id the later left entity's join is dropped. */
  lemma EarlierPairWins(es: seq<Entity>, i: nat, j: nat, r: Entity, r': Entity)
    requires DistinctKeys(EntityId, es) && i < j < |es| && r in es && r' in es
    requires Related(es, es[i], r) && Related(es, es[j], r') && InferredId(es[i], r) == InferredId(es[j], r')
    ensures InferredJoin(es[j], r') !in Inferred(Pairs(es, es))
  {
    if InferredJoin(es[j], r') in Inferred(Pairs(es, es)) {
      var k := InferredIsKept(Pairs(es, es), InferredJoin(es[j], r'));
      var m := PairPosition(es, i, r);
      if k <= m { FirstPairsDiffer(es, i, j, k); }
    }
  }

  predicate IsPlain(s: string) {
    IsIdent(s) && IsLower(s)
  }

  lemma SafePlain(s: string)
    requires IsPlain(s)
    ensures SafeIdentifier(s, Lower) == s
  {
    IdentStripped(s);
    LowerFixed(s);
    MappedAt(SafeChar, s);
    assert Mapped(SafeChar, s) == s;
  }

  function Columns(columns: seq<string>): Json {
    List(seq(|columns|, i requires 0 <= i < |columns| => Str(columns[i])), "")
  }

  lemma {:induction false} ColumnsRead(columns: seq<string>)
    requires StrictlySorted(Itself, columns) && forall c | c in columns :: IsIdent(c)
    ensures StringList(Columns(columns)) == columns
  {
    TidyColumns(columns);
    SortedSetFixed(columns);
  }

  lemma {:induction false} TidyColumns(columns: seq<string>)
    requires forall c | c in columns :: IsIdent(c)
    ensures TidyTexts(Columns(columns).items) == columns
  {
    if columns != [] {
      var front, last := columns[..|columns| - 1], columns[|columns| - 1];
      TidyColumns(front);
      assert Columns(columns).items[..|columns| - 1] == Columns(front).items && columns == front + [last];
      IdentStripped(last);
    }
  }

  lemma PickFirst(key: string, column: string)
    requires Lower(key) == "id" && Lower(column) != "id"
    ensures PickPrimaryKey([key, column], Lower) == key
  {
    assert [key, column][..1] == [key];
    assert LastNamedId([key], Lower) == Some(key);
  }

  lemma WithoutFirst(key: string, column: string)
    requires key != column
    ensures Without([key, column], key) == [column]
  {
    assert [key, column][..1] == [key] && [key][..0] == [];
    assert Without([key], key) == [];
  }

  /** With a column id and a later one the key is id. */
  lemma TwoColumns(d: Dataset, id: string, key: string, column: string)
    requires key == "id" && IsPlain(column) && Less(key, column) && d.schemaColumns == Columns([key, column])
    ensures EntityFor(d, id, Lower) == Entity(id, d.datasetId, key, [column])
  {
    LessAsymmetric(key, column);
    ColumnsRead([key, column]);
    LowerFixed(key);
    LowerFixed(column);
    PickFirst(key, column);
    WithoutFirst(key, column);
    SortedSetFixed([column]);
    EntityIs(d, id, [key, column], key, [column]);
  }

  lemma EntityIs(d: Dataset, id: string, columns: seq<string>, key: string, others: seq<string>)
    requires StringList(d.schemaColumns) == columns && PickPrimaryKey(columns, Lower) == key
    requires SortedSet(Without(columns, key)) == others && |others| <= MAX_ATTRIBUTES_PER_ENTITY
    ensures EntityFor(d, id, Lower) == Entity(id, d.datasetId, key, others)
  {
  }

  lemma PickOnly(column: string)
    requires IsPlain(column) && |column| < 2
    ensures PickPrimaryKey([column], Lower) == column && Without([column], column) == []
  {
    LowerFixed(column);
    assert [column][..0] == [] && [column][1..] == [];
  }

  /** With one short column the key is that column. */
  lemma OneColumn(d: Dataset, id: string, column: string)
    requires IsPlain(column) && |column| < 2 && d.schemaColumns == Columns([column])
    ensures EntityFor(d, id, Lower) == Entity(id, d.datasetId, column, [])
  {
    ColumnsRead([column]);
    PickOnly(column);
    SortedSetFixed([]);
    EntityIs(d, id, [column], column, []);
  }

  ghost predicate PlainDistinctNames(datasets: seq<Dataset>) {
    && (forall d | d in datasets :: IsPlain(d.logicalName))
    && forall i, j | 0 <= i < j < |datasets| :: datasets[i].logicalName != datasets[j].logicalName
  }

  lemma PlainNamesFront(datasets: seq<Dataset>)
    requires datasets != [] && PlainDistinctNames(datasets)
    ensures PlainDistinctNames(datasets[..|datasets| - 1])
  {
  }

  ghost predicate NamesKept(datasets: seq<Dataset>, es: seq<Entity>) {
    |es| == |datasets| && forall i | 0 <= i < |es| :: es[i].id == datasets[i].logicalName
  }

  /** Plain distinct names become the entity ids. */
  lemma {:induction false} PlainIds(datasets: seq<Dataset>)
    requires PlainDistinctNames(datasets)
    ensures NamesKept(datasets, Entities(datasets, Lower))
  {
    if datasets != [] {
      var rest, d := datasets[..|datasets| - 1], datasets[|datasets| - 1];
      var front := Entities(rest, Lower);
      PlainNamesFront(datasets);
      PlainIds(rest);
      NewName(datasets, front);
      var e := LastEntity(datasets, rest, front, d);
      AppendedName(rest, front, d, e, datasets, Entities(datasets, Lower));
    }
  }

  lemma AppendedName(rest: seq<Dataset>, front: seq<Entity>, d: Dataset, e: Entity, datasets: seq<Dataset>, es: seq<Entity>)
    requires NamesKept(rest, front) && e.id == d.logicalName && es == front + [e] && datasets != []
    requires rest == datasets[..|datasets| - 1] && d == datasets[|datasets| - 1]
    ensures NamesKept(datasets, es)
  {
  }

  lemma NewName(datasets: seq<Dataset>, front: seq<Entity>)
    requires datasets != [] && PlainDistinctNames(datasets) && NamesKept(datasets[..|datasets| - 1], front)
    ensures datasets[|datasets| - 1].logicalName !in EntityIds(front)
  {
    forall i | 0 <= i < |front| ensures front[i].id != datasets[|datasets| - 1].logicalName {
      assert datasets[..|datasets| - 1][i] == datasets[i];
    }
  }

  lemma LastEntity(datasets: seq<Dataset>, rest: seq<Dataset>, front: seq<Entity>, d: Dataset) returns (e: Entity)
    requires datasets != [] && rest == datasets[..|datasets| - 1] && d == datasets[|datasets| - 1]
    requires front == Entities(rest, Lower) && IsPlain(d.logicalName) && d.logicalName !in EntityIds(front)
    ensures Entities(datasets, Lower) == front + [e] && e.id == d.logicalName
  {
    SafePlain(d.logicalName);
    e := EntityFor(d, d.logicalName, Lower);
    assert FirstFree(BaseId(d, Lower), EntityIds(front), 0) == d.logicalName;
  }

  lemma PlainEntity(datasets: seq<Dataset>, i: nat)
    requires PlainDistinctNames(datasets) && i < |datasets|
    ensures Entities(datasets, Lower)[i] == EntityFor(datasets[i], datasets[i].logicalName, Lower)
  {
    PlainIds(datasets);
    EntityAt(datasets, Lower, i);
  }

  lemma KeyedEntity(datasets: seq<Dataset>, i: nat, key: string, column: string)
    requires PlainDistinctNames(datasets) && i < |datasets| && datasets[i].schemaColumns == Columns([key, column])
    requires key == "id" && IsPlain(column) && Less(key, column)
    ensures Entities(datasets, Lower)[i] == Entity(datasets[i].logicalName, datasets[i].datasetId, key, [column])
  {
    PlainEntity(datasets, i);
    TwoColumns(datasets[i], datasets[i].logicalName, key, column);
  }

  lemma BareEntity(datasets: seq<Dataset>, i: nat, column: string)
    requires PlainDistinctNames(datasets) && i < |datasets| && datasets[i].schemaColumns == Columns([column])
    requires IsPlain(column) && |column| < 2
    ensures Entities(datasets, Lower)[i] == Entity(datasets[i].logicalName, datasets[i].datasetId, column, [])
  {
    PlainEntity(datasets, i);
    OneColumn(datasets[i], datasets[i].logicalName, column);
  }

  /** A catalog with datasets a, a_to_b, b_to_c and c, in the order of their names: a has a column m, the only one of
      b_to_c, and a_to_b a column k, the only one of c. */
  ghost predicate CollidingCatalog(ds: seq<Dataset>, a: string, b: string, c: string, id: string, k: string, m: string) {
    && |ds| == 4 && PlainDistinctNames(ds) && id == "id"
    && ds[0].logicalName == a && ds[1].logicalName == a + "_to_" + b
    && ds[2].logicalName == b + "_to_" + c && ds[3].logicalName == c
    && (forall i, j | 0 <= i < j < 4 :: Less(ds[i].logicalName, ds[j].logicalName))
    && IsPlain(k) && IsPlain(m) && |k| < 2 && |m| < 2 && Less(id, k) && Less(id, m)
    && ds[0].schemaColumns == Columns([id, m]) && ds[1].schemaColumns == Columns([id, k])
    && ds[2].schemaColumns == Columns([m]) && ds[3].schemaColumns == Columns([k])
  }

  /** It is built whenever its dataset ids are not blank, but the join of a_to_b with c is lost, because that of a with
      b_to_c has its id. */
  lemma CollidingJoinDropped(workspaceId: string, ds: seq<Dataset>, a: string, b: string, c: string,
                             id: string, k: string, m: string)
    requires CollidingCatalog(ds, a, b, c, id, k, m) && workspaceId != "" && IsStripped(workspaceId)
    requires forall d | d in ds :: Strip(d.datasetId) != ""
    ensures var r, es := Built(workspaceId, ds, Lower), Entities(ds, Lower);
            && r.Ok? && Related(es, es[3], es[1]) && es[3].id == c && es[1].id == a + "_to_" + b
            && InferredJoin(es[3], es[1]) !in r.value.joins
  {
    var es := Entities(ds, Lower);
    KeyedEntity(ds, 0, id, m);
    KeyedEntity(ds, 1, id, k);
    BareEntity(ds, 2, m);
    BareEntity(ds, 3, k);
    EntitiesDistinct(ds, Lower);
    CollidingPair(es, a, b, c);
    NotAmongSorted(Inferred(Pairs(es, es)), InferredJoin(es[3], es[1]));
    CollidingColumns(ds, a, b, c, id, k, m);
    IdentifierColumnsSuffice(workspaceId, ds, Lower);
  }

  lemma CollidingColumns(ds: seq<Dataset>, a: string, b: string, c: string, id: string, k: string, m: string)
    requires CollidingCatalog(ds, a, b, c, id, k, m)
    ensures forall d, column | d in ds && column in StringList(d.schemaColumns) :: IsIdent(column)
  {
    ColumnsAreIdents(ds[0], [id, m]);
    ColumnsAreIdents(ds[1], [id, k]);
    ColumnsAreIdents(ds[2], [m]);
    ColumnsAreIdents(ds[3], [k]);
    forall d, column | d in ds && column in StringList(d.schemaColumns) ensures IsIdent(column) {
      assert d == ds[0] || d == ds[1] || d == ds[2] || d == ds[3];
    }
  }

  lemma ColumnsAreIdents(d: Dataset, columns: seq<string>)
    requires d.schemaColumns == Columns(columns) && (|columns| < 2 || (|columns| == 2 && Less(columns[0], columns[1])))
    requires forall c | c in columns :: IsIdent(c)
    ensures forall c | c in StringList(d.schemaColumns) :: IsIdent(c)
  {
    ColumnsRead(columns);
  }

  lemma CollidingPair(es: seq<Entity>, a: string, b: string, c: string)
    requires DistinctKeys(EntityId, es) && |es| == 4
    requires es[0].id == a && es[1].id == a + "_to_" + b && es[2].id == b + "_to_" + c && es[3].id == c
    requires es[2].primaryKey in es[0].attributes && es[3].primaryKey in es[1].attributes
    ensures Related(es, es[3], es[1]) && InferredJoin(es[3], es[1]) !in Inferred(Pairs(es, es))
  {
    assert a + "_to_" + (b + "_to_" + c) == a + "_to_" + b + "_to_" + c;
    assert EntityId(es[0]) != EntityId(es[2]) && EntityId(es[1]) != EntityId(es[3]);
    EarlierPairWins(es, 2, 3, es[0], es[1]);
  }

  lemma NotAmongSorted(js: seq<Join>, j: Join)
    requires j !in js
    ensures j !in SortBy(JoinId, js)
  {
    SortContents(JoinId, js);
    assert j !in multiset(SortBy(JoinId, js));
  }

  /** There is such a catalog. */
  lemma CollidingCatalogExists(ds: seq<Dataset>)
    requires ds == [Dataset("d1", "a", Columns(["id", "m"])), Dataset("d2", "a_to_b", Columns(["id", "k"])),
                    Dataset("d3", "b_to_c", Columns(["m"])), Dataset("d4", "c", Columns(["k"]))]
    ensures CollidingCatalog(ds, "a", "b", "c", "id", "k", "m")
  {
    PlainExamples();
    OrderedExamples();
  }

  lemma PlainExamples()
    ensures IsPlain("a") && IsPlain("a_to_b") && IsPlain("b_to_c") && IsPlain("c") && IsPlain("k") && IsPlain("m")
  {
  }

  lemma OrderedExamples()
    ensures Less("a", "a_to_b") && Less("a", "b_to_c") && Less("a", "c") && Less("a_to_b", "b_to_c")
    ensures Less("a_to_b", "c") && Less("b_to_c", "c") && Less("id", "k") && Less("id", "m")
  {
  }
}
