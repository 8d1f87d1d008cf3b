/** The subset of SQL the semantic binding emits: its syntax, its text and its meaning. A query denotes, for each key
    of its GROUP BY columns, an aggregate over the environments of its FROM clause; an environment binds each alias to a
    row or to the null row of an outer join. */
module Sql {
  import opened Sequences
  import opened Text

  // ----- syntax -----

  datatype Column = Column(alias: string, name: string)
  datatype SelectItem = SelectItem(column: Column, output: string)
  /** fn(arg), or fn(*) without an argument */
  datatype Aggregate = Aggregate(fn: string, arg: Option<Column>)
  datatype JoinKind = InnerJoin | LeftJoin | RightJoin | FullJoin
  datatype JoinClause = JoinClause(kind: JoinKind, table: string, alias: string, left: Column, right: Column)
  datatype Select = Select(items: seq<SelectItem>, metric: Aggregate, table: string, alias: string,
                           joins: seq<JoinClause>, groupBy: seq<Column>)

  // ----- text -----

  function ColumnText(c: Column): string {
    c.alias + "." + c.name
  }

  function ItemText(i: SelectItem): string {
    ColumnText(i.column) + " as " + i.output
  }

  function AggregateText(a: Aggregate): string {
    match a.arg
    case None => "count(*)"
    case Some(c) => a.fn + "(" + ColumnText(c) + ")"
  }

  function KindText(k: JoinKind): string {
    match k
    case InnerJoin => "inner join"
    case LeftJoin => "left join"
    case RightJoin => "right join"
    case FullJoin => "full outer join"
  }

  function JoinText(j: JoinClause): string {
    KindText(j.kind) + " gold." + j.table + " as " + j.alias + " on " + ColumnText(j.left) + " = " + ColumnText(j.right)
  }

  function SelectText(s: Select): string {
    "select "
    + JoinWith(", ", Mapped(ItemText, s.items) + [AggregateText(s.metric) + " as metric_value"])
    + " " + "from gold." + s.table + " as " + s.alias
    + (if s.joins != [] then " " + JoinWith(" ", Mapped(JoinText, s.joins)) else "")
    + (if s.groupBy != [] then " group by " + JoinWith(", ", Mapped(ColumnText, s.groupBy)) else "")
  }

  // ----- meaning -----

  datatype Value = Null | Num(r: real) | Str(s: string)

  /** A row of a table; columns it does not list are NULL, so map[] is the null-extended row. */
  type Row = map<string, Value>
  type Database = map<string, seq<Row>>
  /** What the aliases of a query stand for; an alias that is missing is null-extended. */
  type Env = map<string, Row>

  function Table(db: Database, name: string): seq<Row> {
    if name in db then db[name] else []
  }

  function Field(row: Row, name: string): Value {
    if name in row then row[name] else Null
  }

  function Read(env: Env, c: Column): Value {
    if c.alias in env then Field(env[c.alias], c.name) else Null
  }

  /** `a = b` is true: NULL equals nothing. */
  predicate SqlEqual(a: Value, b: Value) {
    a != Null && b != Null && a == b
  }

  /** The rows that satisfy the ON condition together with env, in table order. */
  function Matching(env: Env, j: JoinClause, rows: seq<Row>): seq<Row> {
    if rows == [] then []
    else
      var front, last := Matching(env, j, rows[..|rows| - 1]), rows[|rows| - 1];
      var env' := env[j.alias := last];
      if SqlEqual(Read(env', j.left), Read(env', j.right)) then front + [last] else front
  }

  /** env with alias standing for each of the rows in turn */
  function Bind(env: Env, alias: string, rows: seq<Row>): seq<Env> {
    if rows == [] then [] else Bind(env, alias, rows[..|rows| - 1]) + [env[alias := rows[|rows| - 1]]]
  }

  function JoinOne(env: Env, j: JoinClause, rows: seq<Row>): seq<Env> {
    var matches := Matching(env, j, rows);
    if matches == [] && (j.kind.LeftJoin? || j.kind.FullJoin?) then [env[j.alias := map[]]]
    else Bind(env, j.alias, matches)
  }

  function JoinEach(envs: seq<Env>, j: JoinClause, rows: seq<Row>): seq<Env> {
    if envs == [] then []
    else JoinEach(envs[..|envs| - 1], j, rows) + JoinOne(envs[|envs| - 1], j, rows)
  }

  /** The rows of the joined table no environment matches, for RIGHT and FULL joins. */
  function Unmatched(envs: seq<Env>, j: JoinClause, rows: seq<Row>): seq<Env> {
    if rows == [] then []
    else
      var front, last := Unmatched(envs, j, rows[..|rows| - 1]), rows[|rows| - 1];
      if exists env | env in envs :: Matching(env, j, [last]) != [] then front else front + [map[j.alias := last]]
  }

  function JoinStep(db: Database, envs: seq<Env>, j: JoinClause): seq<Env> {
    JoinEach(envs, j, Table(db, j.table))
    + if j.kind.RightJoin? || j.kind.FullJoin? then Unmatched(envs, j, Table(db, j.table)) else []
  }

  /** FROM table AS alias JOIN .. JOIN .. */
  function From(db: Database, table: string, alias: string, joins: seq<JoinClause>): seq<Env> {
    if joins == [] then Bind(map[], alias, Table(db, table))
    else JoinStep(db, From(db, table, alias, joins[..|joins| - 1]), joins[|joins| - 1])
  }

  // ----- aggregation: one pass over the values, finished at the end -----

  datatype Totals = Totals(rows: nat, values: nat, sum: real, numeric: bool, least: Option<Value>, greatest: Option<Value>)

  const NOTHING := Totals(0, 0, 0.0, true, None, None)

  /** Numbers before texts; NULL is never compared. */
  predicate ValueAtMost(a: Value, b: Value) {
    match (a, b)
    case (Num(x), Num(y)) => x <= y
    case (Str(x), Str(y)) => AtMost(x, y)
    case (Num(_), Str(_)) => true
    case _ => a == b
  }

  function Lesser(a: Option<Value>, v: Value): Option<Value> {
    if a.None? || ValueAtMost(v, a.value) then Some(v) else a
  }

  function Greater(a: Option<Value>, v: Value): Option<Value> {
    if a.None? || ValueAtMost(a.value, v) then Some(v) else a
  }

  function Tally(t: Totals, v: Value): Totals {
    if v == Null then t.(rows := t.rows + 1)
    else
      Totals(t.rows + 1, t.values + 1, if v.Num? then t.sum + v.r else t.sum, t.numeric && v.Num?,
             Lesser(t.least, v), Greater(t.greatest, v))
  }

  function TallyAll(vs: seq<Value>): Totals {
    if vs == [] then NOTHING else Tally(TallyAll(vs[..|vs| - 1]), vs[|vs| - 1])
  }

  datatype Answer = Answer(value: Value) | TypeError

  function Finish(fn: string, star: bool, t: Totals): Answer {
    if fn == "count" then Answer(Num((if star then t.rows else t.values) as real))
    else if t.values == 0 then Answer(Null)
    else if fn == "min" then Answer(t.least.GetOr(Null))
    else if fn == "max" then Answer(t.greatest.GetOr(Null))
    else if !t.numeric then TypeError
    else if fn == "sum" then Answer(Num(t.sum))
    else Answer(Num(t.sum / t.values as real))
  }

  function Aggregated(fn: string, star: bool, vs: seq<Value>): Answer {
    Finish(fn, star, TallyAll(vs))
  }

  lemma ValueOrder(a: Value, b: Value, c: Value)
    requires a != Null && b != Null && c != Null
    ensures ValueAtMost(a, b) || ValueAtMost(b, a)
    ensures ValueAtMost(a, b) && ValueAtMost(b, a) ==> a == b
    ensures ValueAtMost(a, b) && ValueAtMost(b, c) ==> ValueAtMost(a, c)
  {
    if a.Str? && b.Str? {
      LessTotal(a.s, b.s);
      if Less(a.s, b.s) { LessAsymmetric(a.s, b.s); }
      if c.Str? && Less(a.s, b.s) && Less(b.s, c.s) { LessTransitive(a.s, b.s, c.s); }
    }
  }

  /** The least (or greatest) of an accumulator and two values does not depend on which value comes first. */
  lemma LesserCommutes(a: Option<Value>, v: Value, w: Value)
    requires v != Null && w != Null && a != Some(Null)
    ensures Lesser(Lesser(a, v), w) == Lesser(Lesser(a, w), v)
    ensures Greater(Greater(a, v), w) == Greater(Greater(a, w), v)
    ensures Lesser(a, v) != Some(Null) && Greater(a, v) != Some(Null)
  {
    var x := if a.Some? then a.value else v;
    ValueOrder(v, w, x);
    ValueOrder(w, v, x);
    ValueOrder(x, v, w);
    ValueOrder(x, w, v);
    ValueOrder(v, x, w);
    ValueOrder(w, x, v);
  }

  ghost predicate Sensible(t: Totals) {
    t.least != Some(Null) && t.greatest != Some(Null)
  }

  lemma TallyCommutes(t: Totals, v: Value, w: Value)
    requires Sensible(t)
    ensures Tally(Tally(t, v), w) == Tally(Tally(t, w), v)
    ensures Sensible(Tally(t, v))
  {
    if v != Null && w != Null {
      LesserCommutes(t.least, v, w);
      LesserCommutes(t.greatest, v, w);
    } else if v != Null {
      LesserCommutes(t.least, v, v);
      LesserCommutes(t.greatest, v, v);
    }
  }

  lemma {:induction false} TallySensible(vs: seq<Value>)
    ensures Sensible(TallyAll(vs))
  {
    if vs != [] {
      TallySensible(vs[..|vs| - 1]);
      TallyCommutes(TallyAll(vs[..|vs| - 1]), vs[|vs| - 1], Null);
    }
  }

  /** A value tallied in the middle might as well come last. */
  lemma {:induction false} TallyMoveToEnd(a: seq<Value>, v: Value, b: seq<Value>)
    ensures TallyAll(a + [v] + b) == Tally(TallyAll(a + b), v)
  {
    if b == [] {
      assert a + [v] + b == a + [v] && (a + [v])[..|a|] == a && a + b == a;
    } else {
      var b', w := b[..|b| - 1], b[|b| - 1];
      TallyMoveToEnd(a, v, b');
      assert (a + [v] + b)[..|a| + |b|] == a + [v] + b' && (a + b)[..|a + b| - 1] == a + b';
      TallySensible(a + b');
      TallyCommutes(TallyAll(a + b'), v, w);
    }
  }

  /** Aggregates depend on the bag of values only. */
  lemma {:induction false} TallyPermutation(s: seq<Value>, t: seq<Value>)
    requires multiset(s) == multiset(t)
    ensures TallyAll(s) == TallyAll(t)
    decreases |s|
  {
    SameLength(s, t);
    if s != [] {
      var k := FindLast(s, t);
      TallyPermutation(s[..|s| - 1], t[..k] + t[k + 1..]);
      RemoveAt(t, k);
      TallyMoveToEnd(t[..k], t[k], t[k + 1..]);
    }
  }

  // ----- SELECT .. GROUP BY .. -----

  function ReadAll(env: Env, columns: seq<Column>): seq<Value> {
    seq(|columns|, i requires 0 <= i < |columns| => Read(env, columns[i]))
  }

  /** The argument of the aggregate in every environment of the group, in order; any marker will do for `*`. */
  function GroupValues(envs: seq<Env>, groupBy: seq<Column>, arg: Option<Column>, group: seq<Value>): seq<Value> {
    if envs == [] then []
    else
      var front, env := GroupValues(envs[..|envs| - 1], groupBy, arg, group), envs[|envs| - 1];
      if ReadAll(env, groupBy) != group then front
      else front + [if arg.Some? then Read(env, arg.value) else Null]
  }

  /** The groups of the result; without GROUP BY there is always exactly one. */
  function Groups(envs: seq<Env>, groupBy: seq<Column>): set<seq<Value>> {
    if groupBy == [] then {[]} else set env | env in envs :: ReadAll(env, groupBy)
  }

  /** The result of the query: the metric of every group. */
  function Evaluate(db: Database, s: Select): map<seq<Value>, Answer> {
    var envs := From(db, s.table, s.alias, s.joins);
    map group | group in Groups(envs, s.groupBy) ::
      Aggregated(s.metric.fn, s.metric.arg.None?, GroupValues(envs, s.groupBy, s.metric.arg, group))
  }
}
