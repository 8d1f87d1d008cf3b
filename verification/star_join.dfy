/** What a compiled semantic query means, stated on entities and rows without SQL, and that the SQL means it. A row of
    the metric's entity stands for its combinations with one matching row, or none, of every other involved entity. */
module StarJoin {
  import opened Sequences
  import opened Text
  import opened Semantic
  import opened SemanticBinding
  import Sql

  type Row = Sql.Row
  type Database = Sql.Database

  /** One row per involved entity; map[] stands for "no partner". */
  type Tuple = map<string, Row>

  // ----- the reference meaning -----

  function BaseKey(j: Join, base: string): string {
    if j.leftEntity == base then j.leftKey else j.rightKey
  }

  function OtherKey(j: Join, base: string): string {
    if j.leftEntity == base then j.rightKey else j.leftKey
  }

  /** LEFT keeps the metric's rows whichever side of the join they are listed on; FULL does as well. */
  predicate KeepsBase(j: Join) {
    KindOf(j.joinType) in {Sql.LeftJoin, Sql.FullJoin}
  }

  function KeyMatches(r: Row, baseKey: string, otherKey: string, rows: seq<Row>): seq<Row> {
    if rows == [] then []
    else
      var front, last := KeyMatches(r, baseKey, otherKey, rows[..|rows| - 1]), rows[|rows| - 1];
      if Sql.SqlEqual(Sql.Field(r, baseKey), Sql.Field(last, otherKey)) then front + [last] else front
  }

  /** The rows of entity e that go with row r of the metric's entity, under the first join listed for the pair. */
  function Partners(db: Database, joins: seq<Join>, base: string, e: string, r: Row): seq<Row> {
    match FindJoinBetween(joins, base, e)
    case None => []
    case Some(j) =>
      var matches := KeyMatches(r, BaseKey(j, base), OtherKey(j, base), Sql.Table(db, e));
      if matches == [] && KeepsBase(j) then [map[]] else matches
  }

  /** Every tuple of ts combined with every row. */
  function Product(ts: seq<Tuple>, e: string, rows: seq<Row>): seq<Tuple> {
    if ts == [] then [] else Product(ts[..|ts| - 1], e, rows) + Sql.Bind(ts[|ts| - 1], e, rows)
  }

  /** The product, over the other entities, of the partners of one row of the metric's entity. */
  function Star(db: Database, joins: seq<Join>, base: string, others: seq<string>, r: Row): seq<Tuple> {
    if others == [] then [map[base := r]]
    else
      var front, e := others[..|others| - 1], others[|others| - 1];
      Product(Star(db, joins, base, front, r), e, Partners(db, joins, base, e, r))
  }

  function Joined(db: Database, joins: seq<Join>, base: string, others: seq<string>, rows: seq<Row>): seq<Tuple> {
    if rows == [] then []
    else Joined(db, joins, base, others, rows[..|rows| - 1]) + Star(db, joins, base, others, rows[|rows| - 1])
  }

  function RowOf(t: Tuple, entity: string): Row {
    if entity in t then t[entity] else map[]
  }

  function ValueAt(t: Tuple, entity: string, column: string): Sql.Value {
    Sql.Field(RowOf(t, entity), column)
  }

  type GroupKey = map<GroupRef, Sql.Value>

  function KeyOf(refs: seq<GroupRef>, t: Tuple): GroupKey {
    map g | g in refs :: ValueAt(t, g.entity, g.column)
  }

  function ValuesIn(ts: seq<Tuple>, refs: seq<GroupRef>, entity: string, field: string, key: GroupKey): seq<Sql.Value> {
    if ts == [] then []
    else
      var front, t := ValuesIn(ts[..|ts| - 1], refs, entity, field, key), ts[|ts| - 1];
      if KeyOf(refs, t) == key then front + [ValueAt(t, entity, field)] else front
  }

  function KeysOf(ts: seq<Tuple>, refs: seq<GroupRef>): set<GroupKey> {
    if refs == [] then {map[]} else set t | t in ts :: KeyOf(refs, t)
  }

  /** The answer to "metric by refs": the metric of every group of joined tuples. */
  function Meaning(db: Database, m: Manifest, metric: Metric, refs: seq<GroupRef>): map<GroupKey, Sql.Answer> {
    var ts := Joined(db, m.joins, metric.entityId, Involved(metric.entityId, refs)[1..], Sql.Table(db, metric.entityId));
    map key | key in KeysOf(ts, refs) ::
      Sql.Aggregated(metric.aggregation, false, ValuesIn(ts, refs, metric.entityId, metric.field, key))
  }

  // ----- chain of joins = product per metric row -----

  function PartnersEach(db: Database, joins: seq<Join>, base: string, e: string, ts: seq<Tuple>): seq<Tuple> {
    if ts == [] then []
    else
      PartnersEach(db, joins, base, e, ts[..|ts| - 1])
      + Sql.Bind(ts[|ts| - 1], e, Partners(db, joins, base, e, RowOf(ts[|ts| - 1], base)))
  }

  lemma {:induction false} PartnersEachConcat(db: Database, joins: seq<Join>, base: string, e: string,
                                              a: seq<Tuple>, b: seq<Tuple>)
    ensures PartnersEach(db, joins, base, e, a + b) == PartnersEach(db, joins, base, e, a) + PartnersEach(db, joins, base, e, b)
  {
    if b == [] {
      assert a + b == a;
    } else {
      ConcatFront(a, b);
      PartnersEachConcat(db, joins, base, e, a, b[..|b| - 1]);
      ConcatAssociative(PartnersEach(db, joins, base, e, a), PartnersEach(db, joins, base, e, b[..|b| - 1]),
                        Sql.Bind(b[|b| - 1], e, Partners(db, joins, base, e, RowOf(b[|b| - 1], base))));
    }
  }

  lemma {:induction false} BindFacts(t: Tuple, e: string, rows: seq<Row>)
    ensures forall u | u in Sql.Bind(t, e, rows) :: e in u && u[e] in rows && u == t[e := u[e]]
  {
    if rows != [] {
      BindFacts(t, e, rows[..|rows| - 1]);
    }
  }

  lemma {:induction false} ProductFacts(ts: seq<Tuple>, e: string, rows: seq<Row>)
    ensures forall u | u in Product(ts, e, rows) :: exists t :: t in ts && e in u && u == t[e := u[e]]
  {
    if ts != [] {
      ProductFacts(ts[..|ts| - 1], e, rows);
      BindFacts(ts[|ts| - 1], e, rows);
      forall u | u in Product(ts, e, rows) ensures exists t :: t in ts && e in u && u == t[e := u[e]] {
        if u in Sql.Bind(ts[|ts| - 1], e, rows) {
          assert ts[|ts| - 1] in ts;
        } else {
          var t :| t in ts[..|ts| - 1] && e in u && u == t[e := u[e]];
          assert t in ts;
        }
      }
    }
  }

  /** A tuple of the star of r lists exactly the involved entities and has r for the metric's entity. */
  lemma {:induction false} StarShape(db: Database, joins: seq<Join>, base: string, others: seq<string>, r: Row)
    requires base !in others
    ensures forall t | t in Star(db, joins, base, others, r) ::
              base in t && t[base] == r && t.Keys == {base} + set e | e in others
  {
    if others != [] {
      var front, e := others[..|others| - 1], others[|others| - 1];
      StarShape(db, joins, base, front, r);
      ProductFacts(Star(db, joins, base, front, r), e, Partners(db, joins, base, e, r));
      FrontMultiset(others);
      assert (set x | x in others) == (set x | x in front) + {e};
    }
  }

  lemma {:induction false} PartnersEachOfStar(db: Database, joins: seq<Join>, base: string, e: string, r: Row, ts: seq<Tuple>)
    requires forall t | t in ts :: RowOf(t, base) == r
    ensures PartnersEach(db, joins, base, e, ts) == Product(ts, e, Partners(db, joins, base, e, r))
  {
    if ts != [] {
      assert forall t | t in ts[..|ts| - 1] :: t in ts;
      PartnersEachOfStar(db, joins, base, e, r, ts[..|ts| - 1]);
      assert ts[|ts| - 1] in ts;
    }
  }

  /** Joining one more entity tuple by tuple is joining it row by row of the metric's entity. */
  lemma {:induction false} JoinedExtends(db: Database, joins: seq<Join>, base: string, others: seq<string>, e: string,
                                         rows: seq<Row>)
    requires base !in others && base != e
    ensures PartnersEach(db, joins, base, e, Joined(db, joins, base, others, rows))
            == Joined(db, joins, base, others + [e], rows)
  {
    if rows != [] {
      var front, r := rows[..|rows| - 1], rows[|rows| - 1];
      JoinedExtends(db, joins, base, others, e, front);
      StarShape(db, joins, base, others, r);
      var star := Star(db, joins, base, others, r);
      PartnersEachConcat(db, joins, base, e, Joined(db, joins, base, others, front), star);
      PartnersEachOfStar(db, joins, base, e, r, star);
      assert (others + [e])[..|others|] == others;
    }
  }

  // ----- from entities to aliases -----

  /** The environment of a tuple: alias t_i stands for the row of the i-th involved entity. */
  function Renamed(t: Tuple, involved: seq<string>): Sql.Env {
    if involved == [] then map[]
    else
      var front, e := involved[..|involved| - 1], involved[|involved| - 1];
      Renamed(t, front)[Alias(|front|) := RowOf(t, e)]
  }

  lemma {:induction false} RenamedAt(t: Tuple, involved: seq<string>)
    ensures forall i: nat :: Alias(i) in Renamed(t, involved) <==> i < |involved|
    ensures forall i: nat | i < |involved| :: Renamed(t, involved)[Alias(i)] == RowOf(t, involved[i])
  {
    if involved != [] {
      var front, e := involved[..|involved| - 1], involved[|involved| - 1];
      RenamedAt(t, front);
      forall i: nat ensures Alias(i) in Renamed(t, involved) <==> i < |involved|
                    ensures i < |involved| ==> Renamed(t, involved)[Alias(i)] == RowOf(t, involved[i])
      {
        if Alias(i) == Alias(|front|) { AliasInjective(i, |front|); }
        if i < |front| { assert front[i] == involved[i]; }
      }
    }
  }

  lemma {:induction false} RenamedUpdate(t: Tuple, involved: seq<string>, e: string, r: Row)
    requires e !in involved
    ensures Renamed(t[e := r], involved) == Renamed(t, involved)
  {
    if involved != [] {
      assert involved[|involved| - 1] in involved;
      assert forall x | x in involved[..|involved| - 1] :: x in involved;
      RenamedUpdate(t, involved[..|involved| - 1], e, r);
    }
  }

  function RenamedAll(ts: seq<Tuple>, involved: seq<string>): seq<Sql.Env> {
    if ts == [] then [] else RenamedAll(ts[..|ts| - 1], involved) + [Renamed(ts[|ts| - 1], involved)]
  }

  lemma {:induction false} RenamedAllConcat(a: seq<Tuple>, b: seq<Tuple>, involved: seq<string>)
    ensures RenamedAll(a + b, involved) == RenamedAll(a, involved) + RenamedAll(b, involved)
  {
    if b == [] {
      assert a + b == a;
    } else {
      ConcatFront(a, b);
      RenamedAllConcat(a, b[..|b| - 1], involved);
      ConcatAssociative(RenamedAll(a, involved), RenamedAll(b[..|b| - 1], involved), [Renamed(b[|b| - 1], involved)]);
    }
  }

  lemma {:induction false} RenamedBind(t: Tuple, involved: seq<string>, e: string, rows: seq<Row>)
    requires e !in involved
    ensures RenamedAll(Sql.Bind(t, e, rows), involved + [e])
            == Sql.Bind(Renamed(t, involved), Alias(|involved|), rows)
  {
    if rows != [] {
      var front, r := rows[..|rows| - 1], rows[|rows| - 1];
      RenamedBind(t, involved, e, front);
      RenamedUpdate(t, involved, e, r);
      assert (involved + [e])[..|involved|] == involved;
      assert Renamed(t[e := r], involved + [e]) == Renamed(t, involved)[Alias(|involved|) := r];
      var bound := Sql.Bind(t, e, rows);
      assert bound[..|bound| - 1] == Sql.Bind(t, e, front);
    }
  }

  // ----- what the emitted chain of joins denotes -----

  /** The environments in which the metric's entity is present (RIGHT and FULL joins add others). */
  function BaseOnly(envs: seq<Sql.Env>): seq<Sql.Env> {
    if envs == [] then []
    else
      var front, env := BaseOnly(envs[..|envs| - 1]), envs[|envs| - 1];
      if Alias(0) in env then front + [env] else front
  }

  lemma {:induction false} BaseOnlyConcat(a: seq<Sql.Env>, b: seq<Sql.Env>)
    ensures BaseOnly(a + b) == BaseOnly(a) + BaseOnly(b)
  {
    if b == [] {
      assert a + b == a;
    } else {
      ConcatFront(a, b);
      BaseOnlyConcat(a, b[..|b| - 1]);
      ConcatAssociative(BaseOnly(a), BaseOnly(b[..|b| - 1]), [b[|b| - 1]]);
    }
  }

  lemma {:induction false} BaseOnlyAllOrNone(envs: seq<Sql.Env>, present: bool)
    requires forall env | env in envs :: Alias(0) in env <==> present
    ensures BaseOnly(envs) == if present then envs else []
  {
    if envs != [] {
      assert forall env | env in envs[..|envs| - 1] :: env in envs;
      BaseOnlyAllOrNone(envs[..|envs| - 1], present);
      assert envs[|envs| - 1] in envs;
    }
  }

  lemma {:induction false} UnmatchedHaveNoBase(envs: seq<Sql.Env>, j: Sql.JoinClause, rows: seq<Row>)
    requires j.alias != Alias(0)
    ensures BaseOnly(Sql.Unmatched(envs, j, rows)) == []
  {
    if rows != [] {
      UnmatchedHaveNoBase(envs, j, rows[..|rows| - 1]);
      BaseOnlyConcat(Sql.Unmatched(envs, j, rows[..|rows| - 1]), [map[j.alias := rows[|rows| - 1]]]);
    }
  }

  lemma {:induction false} BindKeepsBase(env: Sql.Env, alias: string, rows: seq<Row>)
    requires alias != Alias(0)
    ensures forall x | x in Sql.Bind(env, alias, rows) :: Alias(0) in x <==> Alias(0) in env
  {
    if rows != [] { BindKeepsBase(env, alias, rows[..|rows| - 1]); }
  }

  /** Dropping the environments without the metric's entity can be done before or after joining. */
  lemma {:induction false} BaseOnlyJoinEach(envs: seq<Sql.Env>, j: Sql.JoinClause, rows: seq<Row>)
    requires j.alias != Alias(0)
    ensures BaseOnly(Sql.JoinEach(envs, j, rows)) == Sql.JoinEach(BaseOnly(envs), j, rows)
  {
    if envs != [] {
      var front, env := envs[..|envs| - 1], envs[|envs| - 1];
      BaseOnlyJoinEach(front, j, rows);
      BaseOnlyConcat(Sql.JoinEach(front, j, rows), Sql.JoinOne(env, j, rows));
      BindKeepsBase(env, j.alias, Sql.Matching(env, j, rows));
      BaseOnlyAllOrNone(Sql.JoinOne(env, j, rows), Alias(0) in env);
    }
  }

  lemma AliasZero(n: nat)
    ensures Alias(0) == Alias(n) <==> n == 0
  {
    if Alias(0) == Alias(n) { AliasInjective(0, n); }
  }

  /** The clause written for entity e as number n among the involved entities. */
  ghost predicate ClauseFor(clause: Sql.JoinClause, j: Join, base: string, e: string, n: nat) {
    && clause.kind == KindOf(j.joinType) && clause.table == e && clause.alias == Alias(n) && n > 0 && base != e
    && {j.leftEntity, j.rightEntity} == {base, e}
    && clause.left == Sql.Column(if j.leftEntity == base then Alias(0) else Alias(n), j.leftKey)
    && clause.right == Sql.Column(if j.leftEntity == base then Alias(n) else Alias(0), j.rightKey)
  }

  /** ON holds for a row of e exactly when the keys agree, whichever way round the join is listed. */
  lemma {:induction false} MatchingIsKeyMatches(clause: Sql.JoinClause, j: Join, base: string, e: string,
                                                involved: seq<string>, t: Tuple, rows: seq<Row>)
    requires ClauseFor(clause, j, base, e, |involved|) && involved != [] && involved[0] == base
    ensures Sql.Matching(Renamed(t, involved), clause, rows)
            == KeyMatches(RowOf(t, base), BaseKey(j, base), OtherKey(j, base), rows)
  {
    if rows != [] {
      MatchingIsKeyMatches(clause, j, base, e, involved, t, rows[..|rows| - 1]);
      var env := Renamed(t, involved)[clause.alias := rows[|rows| - 1]];
      RenamedAt(t, involved);
      AliasZero(|involved|);
      assert Alias(0) in env && env[Alias(0)] == RowOf(t, base);
    }
  }

  lemma JoinOneIsPartners(db: Database, joins: seq<Join>, clause: Sql.JoinClause, j: Join, base: string, e: string,
                          involved: seq<string>, t: Tuple)
    requires ClauseFor(clause, j, base, e, |involved|) && involved != [] && involved[0] == base
    requires FindJoinBetween(joins, base, e) == Some(j) && e !in involved
    ensures Sql.JoinOne(Renamed(t, involved), clause, Sql.Table(db, e))
            == RenamedAll(Sql.Bind(t, e, Partners(db, joins, base, e, RowOf(t, base))), involved + [e])
  {
    var partners := Partners(db, joins, base, e, RowOf(t, base));
    MatchingIsKeyMatches(clause, j, base, e, involved, t, Sql.Table(db, e));
    RenamedBind(t, involved, e, partners);
    if partners == [map[]] {
      assert partners[..0] == [];
      assert Sql.Bind(Renamed(t, involved), clause.alias, partners) == [Renamed(t, involved)[clause.alias := map[]]];
    }
  }

  lemma {:induction false} JoinEachIsPartnersEach(db: Database, joins: seq<Join>, clause: Sql.JoinClause, j: Join,
                                                  base: string, e: string, involved: seq<string>, ts: seq<Tuple>)
    requires ClauseFor(clause, j, base, e, |involved|) && involved != [] && involved[0] == base
    requires FindJoinBetween(joins, base, e) == Some(j) && e !in involved
    ensures Sql.JoinEach(RenamedAll(ts, involved), clause, Sql.Table(db, e))
            == RenamedAll(PartnersEach(db, joins, base, e, ts), involved + [e])
  {
    if ts != [] {
      var front, t := ts[..|ts| - 1], ts[|ts| - 1];
      JoinEachIsPartnersEach(db, joins, clause, j, base, e, involved, front);
      JoinOneIsPartners(db, joins, clause, j, base, e, involved, t);
      RenamedAllConcat(PartnersEach(db, joins, base, e, front),
                       Sql.Bind(t, e, Partners(db, joins, base, e, RowOf(t, base))), involved + [e]);
      var envs := RenamedAll(ts, involved);
      assert envs == RenamedAll(front, involved) + [Renamed(t, involved)];
      assert envs[..|envs| - 1] == RenamedAll(front, involved) && envs[|envs| - 1] == Renamed(t, involved);
    }
  }

  // ----- the clauses of a compiled query -----

  /** The clauses written for the other entities, the k-th of them under alias k + 1. */
  ghost predicate ClausesFor(joins: seq<Join>, base: string, others: seq<string>, clauses: seq<Sql.JoinClause>) {
    |clauses| == |others| && (others == [] || (
      var n := |others| - 1;
      var j := FindJoinBetween(joins, base, others[n]);
      && j.Some? && ClauseFor(clauses[n], j.value, base, others[n], n + 1)
      && ClausesFor(joins, base, others[..n], clauses[..n])))
  }

  lemma ClauseIsFor(joins: seq<Join>, base: string, e: string, n: nat, aliases: map<string, string>,
                    clause: Sql.JoinClause)
    requires base in aliases && e in aliases && base != e && n > 0
    requires aliases[base] == Alias(0) && aliases[e] == Alias(n)
    requires JoinClauseFor(base, e, joins, aliases) == Ok(clause)
    ensures var j := FindJoinBetween(joins, base, e); j.Some? && ClauseFor(clause, j.value, base, e, n)
  {
    FoundJoinLinks(joins, base, e);
    var j := FindJoinBetween(joins, base, e).value;
    if j.leftEntity == base {
      assert e in {j.leftEntity, j.rightEntity};
    } else {
      assert base in {j.leftEntity, j.rightEntity};
    }
  }

  /** The base has alias t0 and the k-th of the others t(k+1). */
  ghost predicate Aliased(aliases: map<string, string>, base: string, others: seq<string>) {
    && base in aliases && aliases[base] == Alias(0) && base !in others
    && (forall e | e in others :: e in aliases)
    && forall k | 0 <= k < |others| :: others[k] in others && aliases[others[k]] == Alias(k + 1)
  }

  lemma AliasedFront(aliases: map<string, string>, base: string, others: seq<string>)
    requires others != [] && Aliased(aliases, base, others)
    ensures Aliased(aliases, base, others[..|others| - 1])
    ensures others[|others| - 1] in aliases && aliases[others[|others| - 1]] == Alias(|others|) && others[|others| - 1] != base
  {
    var front, n := others[..|others| - 1], |others| - 1;
    assert others[n] in others;
    forall e | e in front ensures e in others {}
    forall k | 0 <= k < n ensures front[k] in front && aliases[front[k]] == Alias(k + 1) { assert front[k] == others[k]; }
  }

  lemma {:induction false} ClausesAreFor(joins: seq<Join>, base: string, others: seq<string>,
                                         aliases: map<string, string>, clauses: seq<Sql.JoinClause>)
    requires Aliased(aliases, base, others) && JoinClauses(base, others, joins, aliases) == Ok(clauses)
    ensures ClausesFor(joins, base, others, clauses)
  {
    if others != [] {
      AliasedFront(aliases, base, others);
      LastClause(joins, base, others, aliases, clauses);
      ClausesAreFor(joins, base, others[..|others| - 1], aliases, clauses[..|clauses| - 1]);
      ClauseIsFor(joins, base, others[|others| - 1], |others|, aliases, clauses[|clauses| - 1]);
    }
  }

  lemma LastClause(joins: seq<Join>, base: string, others: seq<string>, aliases: map<string, string>,
                   clauses: seq<Sql.JoinClause>)
    requires others != [] && base in aliases && forall e | e in others :: e in aliases
    requires JoinClauses(base, others, joins, aliases) == Ok(clauses)
    ensures clauses != [] && (forall e | e in others[..|others| - 1] :: e in aliases) && others[|others| - 1] in aliases
    ensures JoinClauses(base, others[..|others| - 1], joins, aliases) == Ok(clauses[..|clauses| - 1])
    ensures JoinClauseFor(base, others[|others| - 1], joins, aliases) == Ok(clauses[|clauses| - 1])
  {
  }

  lemma {:induction false} StartIsRenamed(db: Database, joins: seq<Join>, base: string, rows: seq<Row>)
    ensures Sql.Bind(map[], Alias(0), rows) == RenamedAll(Joined(db, joins, base, [], rows), [base])
    ensures BaseOnly(Sql.Bind(map[], Alias(0), rows)) == Sql.Bind(map[], Alias(0), rows)
  {
    if rows != [] {
      StartIsRenamed(db, joins, base, rows[..|rows| - 1]);
      var t: Tuple := map[base := rows[|rows| - 1]];
      assert [base][..0] == [];
      assert Renamed(t, [base]) == map[Alias(0) := rows[|rows| - 1]];
      RenamedAllConcat(Joined(db, joins, base, [], rows[..|rows| - 1]), [t], [base]);
      assert RenamedAll([t], [base]) == [Renamed(t, [base])] by { assert [t][..0] == []; }
      BaseOnlyConcat(Sql.Bind(map[], Alias(0), rows[..|rows| - 1]), [map[Alias(0) := rows[|rows| - 1]]]);
    }
  }

  /** The FROM clause denotes, for every row of the metric's entity, the product of its partners; RIGHT and
      FULL joins add environments, but only ones without a row of the metric's entity. */
  lemma {:induction false} FromMeansStar(db: Database, joins: seq<Join>, base: string, others: seq<string>,
                                         clauses: seq<Sql.JoinClause>)
    requires ClausesFor(joins, base, others, clauses)
    requires base !in others && forall i, j | 0 <= i < j < |others| :: others[i] != others[j]
    ensures BaseOnly(Sql.From(db, base, Alias(0), clauses))
            == RenamedAll(Joined(db, joins, base, others, Sql.Table(db, base)), [base] + others)
  {
    if others == [] {
      NoOthers(db, joins, base);
    } else {
      var n := |others| - 1;
      SplitOthers(base, others);
      FromMeansStar(db, joins, base, others[..n], clauses[..n]);
      OneMoreJoin(db, joins, base, others[..n], others[n], clauses[n], Sql.From(db, base, Alias(0), clauses[..n]));
    }
  }

  lemma NoOthers(db: Database, joins: seq<Join>, base: string)
    ensures BaseOnly(Sql.From(db, base, Alias(0), []))
            == RenamedAll(Joined(db, joins, base, [], Sql.Table(db, base)), [base] + [])
  {
    assert [base] + [] == [base];
    StartIsRenamed(db, joins, base, Sql.Table(db, base));
  }

  lemma SplitOthers(base: string, others: seq<string>)
    requires others != [] && base !in others && forall i, j | 0 <= i < j < |others| :: others[i] != others[j]
    ensures var front, e := others[..|others| - 1], others[|others| - 1];
            && others == front + [e] && e !in front && base !in front && base != e
            && forall i, j | 0 <= i < j < |front| :: front[i] != front[j]
  {
  }

  lemma OneMoreJoin(db: Database, joins: seq<Join>, base: string, front: seq<string>, e: string,
                    clause: Sql.JoinClause, before: seq<Sql.Env>)
    requires base !in front && e !in front && base != e
    requires FindJoinBetween(joins, base, e).Some?
    requires ClauseFor(clause, FindJoinBetween(joins, base, e).value, base, e, |front| + 1)
    requires BaseOnly(before) == RenamedAll(Joined(db, joins, base, front, Sql.Table(db, base)), [base] + front)
    ensures BaseOnly(Sql.JoinStep(db, before, clause))
            == RenamedAll(Joined(db, joins, base, front + [e], Sql.Table(db, base)), [base] + (front + [e]))
  {
    var rows := Sql.Table(db, base);
    LastJoinStep(db, before, clause);
    JoinEachIsPartnersEach(db, joins, clause, FindJoinBetween(joins, base, e).value, base, e, [base] + front,
                           Joined(db, joins, base, front, rows));
    JoinedExtends(db, joins, base, front, e, rows);
    ConcatAssociative([base], front, [e]);
  }

  lemma LastJoinStep(db: Database, before: seq<Sql.Env>, clause: Sql.JoinClause)
    requires exists n: nat :: n > 0 && clause.alias == Alias(n)
    ensures BaseOnly(Sql.JoinStep(db, before, clause))
            == Sql.JoinEach(BaseOnly(before), clause, Sql.Table(db, clause.table))
  {
    var n: nat :| n > 0 && clause.alias == Alias(n);
    AliasZero(n);
    var rows := Sql.Table(db, clause.table);
    BaseOnlyJoinEach(before, clause, rows);
    UnmatchedHaveNoBase(before, clause, rows);
    var extra := if clause.kind.RightJoin? || clause.kind.FullJoin? then Sql.Unmatched(before, clause, rows) else [];
    BaseOnlyConcat(Sql.JoinEach(before, clause, rows), extra);
    assert BaseOnly(extra) == [];
  }

  /** With INNER and LEFT joins only, every environment has a row of the metric's entity. */
  lemma {:induction false} FromHasBase(db: Database, table: string, clauses: seq<Sql.JoinClause>)
    requires forall j | j in clauses :: j.alias != Alias(0) && (j.kind.InnerJoin? || j.kind.LeftJoin?)
    ensures forall env | env in Sql.From(db, table, Alias(0), clauses) :: Alias(0) in env
    ensures BaseOnly(Sql.From(db, table, Alias(0), clauses)) == Sql.From(db, table, Alias(0), clauses)
  {
    if clauses == [] {
      BindHasAlias(map[], Alias(0), Sql.Table(db, table));
    } else {
      var front, j := clauses[..|clauses| - 1], clauses[|clauses| - 1];
      assert forall c | c in front :: c in clauses;
      FromHasBase(db, table, front);
      assert j in clauses;
      BaseOnlyJoinEach(Sql.From(db, table, Alias(0), front), j, Sql.Table(db, j.table));
      JoinEachKeepsBase(Sql.From(db, table, Alias(0), front), j, Sql.Table(db, j.table));
    }
    BaseOnlyAllOrNone(Sql.From(db, table, Alias(0), clauses), true);
  }

  lemma {:induction false} BindHasAlias(env: Sql.Env, alias: string, rows: seq<Row>)
    ensures forall x | x in Sql.Bind(env, alias, rows) :: alias in x
  {
    if rows != [] { BindHasAlias(env, alias, rows[..|rows| - 1]); }
  }

  lemma {:induction false} JoinEachKeepsBase(envs: seq<Sql.Env>, j: Sql.JoinClause, rows: seq<Row>)
    requires j.alias != Alias(0) && forall env | env in envs :: Alias(0) in env
    ensures forall x | x in Sql.JoinEach(envs, j, rows) :: Alias(0) in x
  {
    if envs != [] {
      assert forall env | env in envs[..|envs| - 1] :: env in envs;
      JoinEachKeepsBase(envs[..|envs| - 1], j, rows);
      var env := envs[|envs| - 1];
      assert env in envs;
      BindKeepsBase(env, j.alias, Sql.Matching(env, j, rows));
    }
  }

  // ----- groups and metrics -----

  /** The values of a group key in the order of the GROUP BY list. */
  function KeyValues(refs: seq<GroupRef>, key: GroupKey): seq<Sql.Value> {
    seq(|refs|, i requires 0 <= i < |refs| => if refs[i] in key then key[refs[i]] else Sql.Null)
  }

  lemma KeyValuesInjective(refs: seq<GroupRef>, a: GroupKey, b: GroupKey)
    requires a.Keys == (set g | g in refs) && b.Keys == (set g | g in refs)
    requires KeyValues(refs, a) == KeyValues(refs, b)
    ensures a == b
  {
    forall g | g in a.Keys ensures a[g] == b[g] {
      var i :| 0 <= i < |refs| && refs[i] == g;
      assert KeyValues(refs, a)[i] == a[g] && KeyValues(refs, b)[i] == b[g];
    }
  }

  /** Reading a compiled column in the environment of a tuple reads that entity's row. */
  lemma ReadRenamed(t: Tuple, involved: seq<string>, entity: string, name: string)
    requires entity in involved && forall i, j | 0 <= i < j < |involved| :: involved[i] != involved[j]
    ensures entity in Aliases(involved)
    ensures Sql.Read(Renamed(t, involved), Sql.Column(Aliases(involved)[entity], name)) == ValueAt(t, entity, name)
  {
    AliasesFacts(involved);
    RenamedAt(t, involved);
    var i :| 0 <= i < |involved| && involved[i] == entity;
    assert Aliases(involved)[involved[i]] == Alias(i);
  }

  lemma ReadAllIsKey(t: Tuple, involved: seq<string>, refs: seq<GroupRef>)
    requires forall i, j | 0 <= i < j < |involved| :: involved[i] != involved[j]
    requires forall g | g in refs :: g.entity in involved && g.entity in Aliases(involved)
    ensures Sql.ReadAll(Renamed(t, involved), Columns(Aliases(involved), refs)) == KeyValues(refs, KeyOf(refs, t))
  {
    var columns := Columns(Aliases(involved), refs);
    forall i | 0 <= i < |refs|
      ensures Sql.Read(Renamed(t, involved), columns[i]) == KeyValues(refs, KeyOf(refs, t))[i]
    {
      assert refs[i] in refs;
      ReadRenamed(t, involved, refs[i].entity, refs[i].column);
    }
  }

  lemma {:induction false} GroupValuesAreValuesIn(ts: seq<Tuple>, involved: seq<string>, refs: seq<GroupRef>,
                                                  base: string, field: string, key: GroupKey)
    requires forall i, j | 0 <= i < j < |involved| :: involved[i] != involved[j]
    requires forall g | g in refs :: g.entity in involved && g.entity in Aliases(involved)
    requires base in involved && base in Aliases(involved) && key.Keys == set g | g in refs
    ensures Sql.GroupValues(RenamedAll(ts, involved), Columns(Aliases(involved), refs),
                            Some(Sql.Column(Aliases(involved)[base], field)), KeyValues(refs, key))
            == ValuesIn(ts, refs, base, field, key)
  {
    if ts != [] {
      var front, t := ts[..|ts| - 1], ts[|ts| - 1];
      GroupValuesAreValuesIn(front, involved, refs, base, field, key);
      ReadAllIsKey(t, involved, refs);
      ReadRenamed(t, involved, base, field);
      if KeyValues(refs, KeyOf(refs, t)) == KeyValues(refs, key) { KeyValuesInjective(refs, KeyOf(refs, t), key); }
      assert RenamedAll(ts, involved)[..|RenamedAll(front, involved)|] == RenamedAll(front, involved);
    }
  }

  lemma {:induction false} RenamedAllMembers(ts: seq<Tuple>, involved: seq<string>)
    ensures forall env :: env in RenamedAll(ts, involved) <==> exists t :: t in ts && Renamed(t, involved) == env
  {
    if ts != [] {
      RenamedAllMembers(ts[..|ts| - 1], involved);
      FrontMultiset(ts);
      forall env ensures env in RenamedAll(ts, involved) <==> exists t :: t in ts && Renamed(t, involved) == env {
        if t :| t in ts && Renamed(t, involved) == env {
          assert t in ts[..|ts| - 1] || t == ts[|ts| - 1];
        }
      }
    }
  }

  /** The involved entities are distinct, and the metric's has alias t0. */
  ghost predicate Scope(involved: seq<string>, base: string, refs: seq<GroupRef>) {
    && (forall i, j | 0 <= i < j < |involved| :: involved[i] != involved[j])
    && (forall g | g in refs :: g.entity in involved && g.entity in Aliases(involved))
    && base in involved && base in Aliases(involved) && Aliases(involved)[base] == Alias(0)
  }

  /** Every group key of the tuples is a group of the SQL. */
  lemma KeyIsSqlGroup(ts: seq<Tuple>, involved: seq<string>, base: string, refs: seq<GroupRef>, key: GroupKey)
    requires Scope(involved, base, refs) && key in KeysOf(ts, refs)
    ensures key.Keys == (set g | g in refs)
    ensures KeyValues(refs, key) in Sql.Groups(RenamedAll(ts, involved), Columns(Aliases(involved), refs))
  {
    var columns := Columns(Aliases(involved), refs);
    if refs == [] {
      assert columns == [] && KeyValues(refs, map[]) == [];
    } else {
      var t :| t in ts && KeyOf(refs, t) == key;
      RenamedAllMembers(ts, involved);
      ReadAllIsKey(t, involved, refs);
      assert Renamed(t, involved) in RenamedAll(ts, involved);
    }
  }

  /** Every group of the SQL is one of them. */
  lemma SqlGroupIsKey(ts: seq<Tuple>, involved: seq<string>, base: string, refs: seq<GroupRef>, group: seq<Sql.Value>)
    returns (key: GroupKey)
    requires Scope(involved, base, refs)
    requires group in Sql.Groups(RenamedAll(ts, involved), Columns(Aliases(involved), refs))
    ensures key in KeysOf(ts, refs) && KeyValues(refs, key) == group
  {
    var columns := Columns(Aliases(involved), refs);
    if refs == [] {
      assert columns == [] && KeyValues(refs, map[]) == [];
      key := map[];
    } else {
      var env :| env in RenamedAll(ts, involved) && Sql.ReadAll(env, columns) == group;
      RenamedAllMembers(ts, involved);
      var t :| t in ts && Renamed(t, involved) == env;
      ReadAllIsKey(t, involved, refs);
      key := KeyOf(refs, t);
    }
  }

  lemma NormalMetricExpression(metric: Metric, entityIds: set<string>, alias: string)
    requires MetricNormal(metric, entityIds)
    ensures MetricExpression(metric, alias) == Ok(Sql.Aggregate(metric.aggregation, Some(Sql.Column(alias, metric.field))))
  {
    KeywordFixed(metric.aggregation);
    IdentStripped(metric.field);
    assert IsIdentStart(metric.field[0]) && metric.field != "*";
  }

  /** The involved entities: the metric's first, and the k-th of the others with alias t(k+1). */
  lemma InvolvedOthers(base: string, refs: seq<GroupRef>, involved: seq<string>)
    requires involved == Involved(base, refs)
    ensures Aliased(Aliases(involved), base, involved[1..])
  {
    InvolvedDistinct(base, refs, involved);
    OthersAliased(involved, base);
  }

  lemma InvolvedScope(base: string, refs: seq<GroupRef>, involved: seq<string>)
    requires involved == Involved(base, refs)
    ensures Scope(involved, base, refs)
  {
    InvolvedDistinct(base, refs, involved);
    InvolvedRefs(base, refs, involved);
    ScopeHolds(involved, base, refs);
  }

  lemma InvolvedDistinct(base: string, refs: seq<GroupRef>, involved: seq<string>)
    requires involved == Involved(base, refs)
    ensures involved[0] == base && forall i, j | 0 <= i < j < |involved| :: involved[i] != involved[j]
  {
    InvolvedFacts(base, refs);
  }

  lemma InvolvedRefs(base: string, refs: seq<GroupRef>, involved: seq<string>)
    requires involved == Involved(base, refs)
    ensures forall g | g in refs :: g.entity in involved
  {
    InvolvedFacts(base, refs);
  }

  lemma ScopeHolds(involved: seq<string>, base: string, refs: seq<GroupRef>)
    requires involved != [] && involved[0] == base && forall i, j | 0 <= i < j < |involved| :: involved[i] != involved[j]
    requires forall g | g in refs :: g.entity in involved
    ensures Scope(involved, base, refs)
  {
    AliasesFacts(involved);
    assert Aliases(involved)[involved[0]] == Alias(0);
  }

  lemma OthersDistinct(base: string, refs: seq<GroupRef>, involved: seq<string>)
    requires involved == Involved(base, refs)
    ensures involved == [base] + involved[1..] && base !in involved[1..]
    ensures forall i, j | 0 <= i < j < |involved| - 1 :: involved[1..][i] != involved[1..][j]
  {
    InvolvedDistinct(base, refs, involved);
  }

  lemma OthersAliased(involved: seq<string>, base: string)
    requires involved != [] && involved[0] == base && forall i, j | 0 <= i < j < |involved| :: involved[i] != involved[j]
    ensures Aliased(Aliases(involved), base, involved[1..])
  {
    var aliases, others := Aliases(involved), involved[1..];
    AliasesFacts(involved);
    assert aliases[involved[0]] == Alias(0);
    forall k | 0 <= k < |others| ensures others[k] in aliases && aliases[others[k]] == Alias(k + 1) && others[k] != base {
      assert others[k] == involved[k + 1];
    }
  }

  /** The parts of a compiled query. */
  lemma CompiledParts(m: Manifest, metric: Metric, refs: seq<GroupRef>, select: Sql.Select)
    requires NormalForm(m) && metric in m.metrics && Compile(m, metric, refs) == Ok(select)
    ensures var involved := Involved(metric.entityId, refs);
            && (forall g | g in refs :: g.entity in Aliases(involved))
            && select.table == metric.entityId && select.alias == Alias(0)
            && select.metric == Sql.Aggregate(metric.aggregation, Some(Sql.Column(Alias(0), metric.field)))
            && select.items == Items(Aliases(involved), refs) && select.groupBy == Columns(Aliases(involved), refs)
            && ClausesFor(m.joins, metric.entityId, involved[1..], select.joins)
  {
    var involved := Involved(metric.entityId, refs);
    InvolvedOthers(metric.entityId, refs, involved);
    InvolvedScope(metric.entityId, refs, involved);
    NormalMetricExpression(metric, EntityIds(m.entities), Alias(0));
    ClausesAreFor(m.joins, metric.entityId, involved[1..], Aliases(involved), select.joins);
  }

  ghost predicate OnlyInnerAndLeft(select: Sql.Select) {
    forall j | j in select.joins :: j.kind.InnerJoin? || j.kind.LeftJoin?
  }

  lemma {:induction false} ClauseAt(joins: seq<Join>, base: string, others: seq<string>,
                                    clauses: seq<Sql.JoinClause>, k: nat)
    requires ClausesFor(joins, base, others, clauses) && k < |clauses|
    ensures var j := FindJoinBetween(joins, base, others[k]); j.Some? && ClauseFor(clauses[k], j.value, base, others[k], k + 1)
  {
    var n := |others| - 1;
    if k < n {
      ClauseAt(joins, base, others[..n], clauses[..n], k);
      assert clauses[..n][k] == clauses[k] && others[..n][k] == others[k];
    } else {
      assert k == n;
    }
  }

  lemma NoClauseHidesBase(joins: seq<Join>, base: string, others: seq<string>, clauses: seq<Sql.JoinClause>)
    requires ClausesFor(joins, base, others, clauses)
    ensures forall j | j in clauses :: j.alias != Alias(0)
  {
    forall j | j in clauses ensures j.alias != Alias(0) {
      var k :| 0 <= k < |clauses| && clauses[k] == j;
      ClauseAt(joins, base, others, clauses, k);
      AliasZero(k + 1);
    }
  }

  /** On any database the FROM clause of a compiled query denotes the joined tuples, renamed to aliases. */
  lemma CompiledFrom(db: Database, joins: seq<Join>, base: string, others: seq<string>, select: Sql.Select)
    requires ClausesFor(joins, base, others, select.joins) && OnlyInnerAndLeft(select)
    requires select.table == base && select.alias == Alias(0)
    requires base !in others && forall i, j | 0 <= i < j < |others| :: others[i] != others[j]
    ensures Sql.From(db, select.table, select.alias, select.joins)
            == RenamedAll(Joined(db, joins, base, others, Sql.Table(db, base)), [base] + others)
  {
    FromMeansStar(db, joins, base, others, select.joins);
    NoClauseHidesBase(joins, base, others, select.joins);
    FromHasBase(db, base, select.joins);
  }

  /** The query selects an aggregate of these tuples by these references. */
  ghost predicate Selects(db: Database, select: Sql.Select, ts: seq<Tuple>, involved: seq<string>, base: string,
                          refs: seq<GroupRef>, fn: string, field: string) {
    && Scope(involved, base, refs)
    && Sql.From(db, select.table, select.alias, select.joins) == RenamedAll(ts, involved)
    && select.groupBy == Columns(Aliases(involved), refs)
    && select.metric == Sql.Aggregate(fn, Some(Sql.Column(Alias(0), field)))
  }

  function TuplesOf(db: Database, m: Manifest, metric: Metric, refs: seq<GroupRef>): seq<Tuple> {
    Joined(db, m.joins, metric.entityId, Involved(metric.entityId, refs)[1..], Sql.Table(db, metric.entityId))
  }

  lemma CompiledSelects(db: Database, m: Manifest, metric: Metric, refs: seq<GroupRef>, select: Sql.Select)
    requires NormalForm(m) && metric in m.metrics && Compile(m, metric, refs) == Ok(select)
    requires OnlyInnerAndLeft(select)
    ensures Selects(db, select, TuplesOf(db, m, metric, refs), Involved(metric.entityId, refs), metric.entityId, refs,
                    metric.aggregation, metric.field)
  {
    var base, involved := metric.entityId, Involved(metric.entityId, refs);
    CompiledParts(m, metric, refs, select);
    InvolvedScope(base, refs, involved);
    OthersDistinct(base, refs, involved);
    CompiledFrom(db, m.joins, base, involved[1..], select);
  }

  /** Each key of the tuples is a group of the SQL, whose value is the aggregate of the key's values. */
  lemma SelectsKey(db: Database, select: Sql.Select, ts: seq<Tuple>, involved: seq<string>, base: string,
                   refs: seq<GroupRef>, fn: string, field: string, key: GroupKey)
    requires Selects(db, select, ts, involved, base, refs, fn, field) && key in KeysOf(ts, refs)
    ensures KeyValues(refs, key) in Sql.Evaluate(db, select)
    ensures Sql.Evaluate(db, select)[KeyValues(refs, key)] == Sql.Aggregated(fn, false, ValuesIn(ts, refs, base, field, key))
  {
    KeyIsSqlGroup(ts, involved, base, refs, key);
    GroupValuesAreValuesIn(ts, involved, refs, base, field, key);
  }

  lemma SelectsGroup(db: Database, select: Sql.Select, ts: seq<Tuple>, involved: seq<string>, base: string,
                     refs: seq<GroupRef>, fn: string, field: string, group: seq<Sql.Value>)
    returns (key: GroupKey)
    requires Selects(db, select, ts, involved, base, refs, fn, field) && group in Sql.Evaluate(db, select)
    ensures key in KeysOf(ts, refs) && KeyValues(refs, key) == group
  {
    key := SqlGroupIsKey(ts, involved, base, refs, group);
  }

  /** Meaning preservation: the emitted SQL answers "metric by refs" on every database. */
  lemma SqlMeansQuery(db: Database, m: Manifest, metric: Metric, refs: seq<GroupRef>, select: Sql.Select)
    requires NormalForm(m) && metric in m.metrics && Compile(m, metric, refs) == Ok(select)
    requires OnlyInnerAndLeft(select)
    ensures forall key | key in Meaning(db, m, metric, refs) ::
              KeyValues(refs, key) in Sql.Evaluate(db, select)
              && Sql.Evaluate(db, select)[KeyValues(refs, key)] == Meaning(db, m, metric, refs)[key]
    ensures forall group | group in Sql.Evaluate(db, select) ::
              exists key :: key in Meaning(db, m, metric, refs) && KeyValues(refs, key) == group
  {
    forall key | key in Meaning(db, m, metric, refs)
      ensures KeyValues(refs, key) in Sql.Evaluate(db, select)
              && Sql.Evaluate(db, select)[KeyValues(refs, key)] == Meaning(db, m, metric, refs)[key]
    {
      KeyIsGroup(db, m, metric, refs, select, key);
    }
    forall group | group in Sql.Evaluate(db, select)
      ensures exists key :: key in Meaning(db, m, metric, refs) && KeyValues(refs, key) == group
    {
      var key := GroupHasKey(db, m, metric, refs, select, group);
    }
  }

  /** Each key of the answer is a group of the SQL, with the same value. */
  lemma KeyIsGroup(db: Database, m: Manifest, metric: Metric, refs: seq<GroupRef>, select: Sql.Select, key: GroupKey)
    requires NormalForm(m) && metric in m.metrics && Compile(m, metric, refs) == Ok(select)
    requires OnlyInnerAndLeft(select) && key in Meaning(db, m, metric, refs)
    ensures KeyValues(refs, key) in Sql.Evaluate(db, select)
    ensures Sql.Evaluate(db, select)[KeyValues(refs, key)] == Meaning(db, m, metric, refs)[key]
  {
    var ts, involved := TuplesOf(db, m, metric, refs), Involved(metric.entityId, refs);
    CompiledSelects(db, m, metric, refs, select);
    MeaningIs(db, m, metric, refs, ts);
    SelectsKey(db, select, ts, involved, metric.entityId, refs, metric.aggregation, metric.field, key);
  }

  /** Each group of the SQL is a key of the answer. */
  lemma GroupHasKey(db: Database, m: Manifest, metric: Metric, refs: seq<GroupRef>, select: Sql.Select, group: seq<Sql.Value>)
    returns (key: GroupKey)
    requires NormalForm(m) && metric in m.metrics && Compile(m, metric, refs) == Ok(select)
    requires OnlyInnerAndLeft(select) && group in Sql.Evaluate(db, select)
    ensures key in Meaning(db, m, metric, refs) && KeyValues(refs, key) == group
  {
    var ts, involved := TuplesOf(db, m, metric, refs), Involved(metric.entityId, refs);
    CompiledSelects(db, m, metric, refs, select);
    MeaningIs(db, m, metric, refs, ts);
    key := SelectsGroup(db, select, ts, involved, metric.entityId, refs, metric.aggregation, metric.field, group);
  }

  lemma MeaningIs(db: Database, m: Manifest, metric: Metric, refs: seq<GroupRef>, ts: seq<Tuple>)
    requires ts == TuplesOf(db, m, metric, refs)
    ensures Meaning(db, m, metric, refs).Keys == KeysOf(ts, refs)
    ensures forall key | key in KeysOf(ts, refs) ::
              Meaning(db, m, metric, refs)[key]
              == Sql.Aggregated(metric.aggregation, false, ValuesIn(ts, refs, metric.entityId, metric.field, key))
  {
  }
}
