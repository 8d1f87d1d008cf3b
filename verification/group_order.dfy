/** The answer to a semantic query does not depend on the order of its group_by list: joining the same entities in
    another order permutes the joined tuples, and no aggregate depends on the order of what it reads. */
module GroupOrder {
  import opened Sequences
  import opened Text
  import opened Semantic
  import opened SemanticBinding
  import opened StarJoin
  import Sql

  // ----- multiplicities in a product -----

  lemma UpdateRemove(t: Tuple, e: string, r: Row, u: Tuple)
    requires e !in t
    ensures u == t[e := r] <==> e in u && u - {e} == t && u[e] == r
  {
    assert t[e := r] - {e} == t;
    if e in u && u - {e} == t && u[e] == r { assert u == (u - {e})[e := r]; }
  }

  lemma {:induction false} BindCount(t: Tuple, e: string, rows: seq<Row>, u: Tuple)
    requires e !in t
    ensures multiset(Sql.Bind(t, e, rows))[u] == if e in u && u - {e} == t then multiset(rows)[u[e]] else 0
  {
    if rows != [] {
      var front, r := rows[..|rows| - 1], rows[|rows| - 1];
      BindCount(t, e, front, u);
      CountLast(Sql.Bind(t, e, rows), u);
      UpdateRemove(t, e, r, u);
      if e in u { CountLast(rows, u[e]); }
      var bound := Sql.Bind(t, e, rows);
      assert bound[..|bound| - 1] == Sql.Bind(t, e, front);
    }
  }

  /** a * b, defined so that the solver does not multiply on its own */
  function Times(a: nat, b: nat): nat {
    if b == 0 then 0 else Times(a, b - 1) + a
  }

  lemma {:induction false} TimesIsProduct(a: nat, b: nat)
    ensures Times(a, b) == a * b
  {
    if b > 0 { TimesIsProduct(a, b - 1); }
  }

  lemma TimesAdds(a: nat, b: nat, c: nat)
    ensures Times(a + b, c) == Times(a, c) + Times(b, c) && Times(0, c) == 0 && Times(1, c) == c
  {
    TimesIsProduct(a + b, c);
    TimesIsProduct(a, c);
    TimesIsProduct(b, c);
    TimesIsProduct(0, c);
    TimesIsProduct(1, c);
  }

  lemma TimesSwaps(a: nat, b: nat, c: nat)
    ensures Times(Times(a, b), c) == Times(Times(a, c), b)
  {
    TimesOfTimes(a, b, c);
    TimesOfTimes(a, c, b);
    ProductSwaps(a, b, c);
  }

  lemma TimesOfTimes(a: nat, b: nat, c: nat)
    ensures Times(Times(a, b), c) == a * b * c
  {
    TimesIsProduct(a, b);
    TimesIsProduct(Times(a, b), c);
  }

  lemma ProductSwaps(a: nat, b: nat, c: nat)
    ensures a * b * c == a * c * b
  {
  }

  lemma {:induction false} ProductCount(ts: seq<Tuple>, e: string, rows: seq<Row>, u: Tuple)
    requires forall t | t in ts :: e !in t
    ensures multiset(Product(ts, e, rows))[u] == if e in u then Times(multiset(ts)[u - {e}], multiset(rows)[u[e]]) else 0
  {
    if ts == [] {
      if e in u { TimesAdds(0, 0, multiset(rows)[u[e]]); }
    } else {
      var front, t := ts[..|ts| - 1], ts[|ts| - 1];
      assert t in ts && forall x | x in front :: x in ts;
      ProductCount(front, e, rows, u);
      BindCount(t, e, rows, u);
      assert multiset(Product(ts, e, rows))[u]
             == multiset(Product(front, e, rows))[u] + multiset(Sql.Bind(t, e, rows))[u];
      if e in u {
        CountLast(ts, u - {e});
        TimesAdds(multiset(front)[u - {e}], if t == u - {e} then 1 else 0, multiset(rows)[u[e]]);
      }
    }
  }

  /** How often row r has u's row of e as a partner. */
  function Share(db: Database, joins: seq<Join>, base: string, e: string, r: Row, u: Tuple): nat {
    multiset(Partners(db, joins, base, e, r))[RowOf(u, e)]
  }

  /** How often a tuple occurs in a star: the product of how often each of its rows is a partner. */
  function Weight(db: Database, joins: seq<Join>, base: string, others: seq<string>, r: Row, u: Tuple): nat {
    if others == [] then 1
    else Times(Weight(db, joins, base, others[..|others| - 1], r, u), Share(db, joins, base, others[|others| - 1], r, u))
  }

  lemma {:induction false} WeightIgnores(db: Database, joins: seq<Join>, base: string, others: seq<string>, r: Row,
                                         u: Tuple, e: string)
    requires e !in others
    ensures Weight(db, joins, base, others, r, u - {e}) == Weight(db, joins, base, others, r, u)
  {
    if others != [] {
      assert others[|others| - 1] in others;
      assert forall x | x in others[..|others| - 1] :: x in others;
      WeightIgnores(db, joins, base, others[..|others| - 1], r, u, e);
    }
  }

  /** The tuples of a star: the right entities, r for the metric's entity, weight as above. */
  lemma {:induction false} StarCount(db: Database, joins: seq<Join>, base: string, others: seq<string>, r: Row, u: Tuple)
    requires base !in others && forall i, j | 0 <= i < j < |others| :: others[i] != others[j]
    ensures multiset(Star(db, joins, base, others, r))[u] ==
            if base in u && u[base] == r && u.Keys == {base} + (set e | e in others)
            then Weight(db, joins, base, others, r, u) else 0
  {
    if others == [] {
      assert (set e | e in others) == {};
      assert u == map[base := r] <==> base in u && u[base] == r && u.Keys == {base};
    } else {
      var front, e := others[..|others| - 1], others[|others| - 1];
      SplitOthers(base, others);
      StarShape(db, joins, base, front, r);
      var star, partners := Star(db, joins, base, front, r), Partners(db, joins, base, e, r);
      NotInStar(star, base, front, e);
      ProductCount(star, e, partners, u);
      if e in u {
        StarCount(db, joins, base, front, r, u - {e});
        WeightIgnores(db, joins, base, front, r, u, e);
        TimesAdds(0, 0, multiset(partners)[u[e]]);
      }
      SameEntities(base, front, e, u);
    }
  }

  lemma NotInStar(star: seq<Tuple>, base: string, front: seq<string>, e: string)
    requires e !in front && e != base && forall t | t in star :: t.Keys == {base} + set x | x in front
    ensures forall t | t in star :: e !in t
  {
    forall t | t in star ensures e !in t { assert e !in t.Keys; }
  }

  lemma SameEntities(base: string, front: seq<string>, e: string, u: Tuple)
    requires e !in front && e != base
    ensures e in u && (u - {e}).Keys == {base} + (set x | x in front)
            <==> u.Keys == {base} + (set x | x in front + [e])
  {
    var names := set x | x in front;
    assert (set x | x in front + [e]) == names + {e};
    assert e !in names && (u - {e}).Keys == u.Keys - {e};
    if e in u && (u - {e}).Keys == {base} + names { assert u.Keys == (u.Keys - {e}) + {e}; }
  }

  lemma {:induction false} WeightMoveToEnd(db: Database, joins: seq<Join>, base: string,
                                           a: seq<string>, e: string, b: seq<string>, r: Row, u: Tuple)
    ensures Weight(db, joins, base, a + [e] + b, r, u)
            == Times(Weight(db, joins, base, a + b, r, u), Share(db, joins, base, e, r, u))
  {
    if b == [] {
      assert a + [e] + b == a + [e] && a + b == a;
      WeightSnoc(db, joins, base, a, e, r, u);
    } else {
      var b', f := b[..|b| - 1], b[|b| - 1];
      FrontMultiset(b);
      ConcatAssociative(a + [e], b', [f]);
      ConcatAssociative(a, b', [f]);
      WeightSnoc(db, joins, base, a + [e] + b', f, r, u);
      WeightSnoc(db, joins, base, a + b', f, r, u);
      WeightMoveToEnd(db, joins, base, a, e, b', r, u);
      TimesSwaps(Weight(db, joins, base, a + b', r, u),
                 Share(db, joins, base, e, r, u), Share(db, joins, base, f, r, u));
    }
  }

  lemma WeightSnoc(db: Database, joins: seq<Join>, base: string, a: seq<string>, e: string, r: Row, u: Tuple)
    ensures Weight(db, joins, base, a + [e], r, u)
            == Times(Weight(db, joins, base, a, r, u), Share(db, joins, base, e, r, u))
  {
    assert (a + [e])[..|a|] == a;
  }

  lemma {:induction false} WeightPermutation(db: Database, joins: seq<Join>, base: string,
                                             s: seq<string>, t: seq<string>, r: Row, u: Tuple)
    requires multiset(s) == multiset(t)
    ensures Weight(db, joins, base, s, r, u) == Weight(db, joins, base, t, r, u)
    decreases |s|
  {
    SameLength(s, t);
    if s != [] {
      var k := FindLast(s, t);
      WeightPermutation(db, joins, base, s[..|s| - 1], t[..k] + t[k + 1..], r, u);
      RemoveAt(t, k);
      WeightMoveToEnd(db, joins, base, t[..k], t[k], t[k + 1..], r, u);
    }
  }

  /** The joined tuples are the same bag for every order of the other entities. */
  lemma {:induction false} JoinedPermutation(db: Database, joins: seq<Join>, base: string,
                                             s: seq<string>, t: seq<string>, rows: seq<Row>)
    requires base !in s && base !in t && forall x :: x in s <==> x in t
    requires forall i, j | 0 <= i < j < |s| :: s[i] != s[j]
    requires forall i, j | 0 <= i < j < |t| :: t[i] != t[j]
    ensures multiset(Joined(db, joins, base, s, rows)) == multiset(Joined(db, joins, base, t, rows))
  {
    if rows != [] {
      JoinedPermutation(db, joins, base, s, t, rows[..|rows| - 1]);
      StarPermutation(db, joins, base, s, t, rows[|rows| - 1]);
    }
  }

  lemma StarPermutation(db: Database, joins: seq<Join>, base: string, s: seq<string>, t: seq<string>, r: Row)
    requires base !in s && base !in t && forall x :: x in s <==> x in t
    requires forall i, j | 0 <= i < j < |s| :: s[i] != s[j]
    requires forall i, j | 0 <= i < j < |t| :: t[i] != t[j]
    ensures multiset(Star(db, joins, base, s, r)) == multiset(Star(db, joins, base, t, r))
  {
    DistinctMultisets(s, t);
    assert (set e | e in s) == (set e | e in t);
    forall u: Tuple ensures multiset(Star(db, joins, base, s, r))[u] == multiset(Star(db, joins, base, t, r))[u] {
      StarCount(db, joins, base, s, r, u);
      StarCount(db, joins, base, t, r, u);
      WeightPermutation(db, joins, base, s, t, r, u);
    }
  }

  // ----- values of a group -----

  lemma {:induction false} ValuesConcat(a: seq<Tuple>, b: seq<Tuple>, refs: seq<GroupRef>, entity: string, field: string,
                                        key: GroupKey)
    ensures ValuesIn(a + b, refs, entity, field, key)
            == ValuesIn(a, refs, entity, field, key) + ValuesIn(b, refs, entity, field, key)
  {
    if b == [] {
      assert a + b == a;
    } else {
      ConcatFront(a, b);
      ValuesConcat(a, b[..|b| - 1], refs, entity, field, key);
    }
  }

  lemma {:induction false} ValuesPermutation(s: seq<Tuple>, t: seq<Tuple>, refs: seq<GroupRef>, refs': seq<GroupRef>,
                                             entity: string, field: string, key: GroupKey)
    requires multiset(s) == multiset(t) && forall g :: g in refs <==> g in refs'
    ensures multiset(ValuesIn(s, refs, entity, field, key)) == multiset(ValuesIn(t, refs', entity, field, key))
    decreases |s|
  {
    SameLength(s, t);
    if s != [] {
      var k := FindLast(s, t);
      ValuesPermutation(s[..|s| - 1], t[..k] + t[k + 1..], refs, refs', entity, field, key);
      LastValue(s, refs, entity, field, key);
      ValuesWithout(t, k, refs', entity, field, key);
      assert KeyOf(refs, t[k]) == KeyOf(refs', t[k]);
    }
  }

  /** What one tuple contributes to a group. */
  function Contribution(t: Tuple, refs: seq<GroupRef>, entity: string, field: string, key: GroupKey): seq<Sql.Value> {
    if KeyOf(refs, t) == key then [ValueAt(t, entity, field)] else []
  }

  lemma LastValue(s: seq<Tuple>, refs: seq<GroupRef>, entity: string, field: string, key: GroupKey)
    requires s != []
    ensures ValuesIn(s, refs, entity, field, key)
         == ValuesIn(s[..|s| - 1], refs, entity, field, key) + Contribution(s[|s| - 1], refs, entity, field, key)
  {
  }

  /** Taking a tuple out of the list takes out its contribution. */
  lemma ValuesWithout(t: seq<Tuple>, k: nat, refs: seq<GroupRef>, entity: string, field: string, key: GroupKey)
    requires k < |t|
    ensures multiset(ValuesIn(t, refs, entity, field, key))
         == multiset(ValuesIn(t[..k] + t[k + 1..], refs, entity, field, key))
            + multiset(Contribution(t[k], refs, entity, field, key))
  {
    var a, b := t[..k], t[k + 1..];
    RemoveAt(t, k);
    ValuesConcat(a, b, refs, entity, field, key);
    ValuesConcat(a + [t[k]], b, refs, entity, field, key);
    assert (a + [t[k]])[..k] == a;
    LastValue(a + [t[k]], refs, entity, field, key);
  }

  lemma SameEmptiness<T>(s: seq<T>, t: seq<T>)
    requires forall x :: x in s <==> x in t
    ensures s == [] <==> t == []
  {
    assert s != [] ==> s[0] in t;
    assert t != [] ==> t[0] in s;
  }

  lemma KeysPermutation(s: seq<Tuple>, t: seq<Tuple>, refs: seq<GroupRef>, refs': seq<GroupRef>)
    requires multiset(s) == multiset(t) && (forall g :: g in refs <==> g in refs')
    ensures KeysOf(s, refs) == KeysOf(t, refs')
  {
    SameEmptiness(refs, refs');
    if refs != [] {
      forall u ensures u in s <==> u in t { assert u in multiset(s) <==> u in multiset(t); }
      forall u | u in s ensures KeyOf(refs, u) == KeyOf(refs', u) {}
    }
  }

  /** Listing the same grouped columns in another order gives the same metric for every group. */
  lemma MeaningIgnoresGroupOrder(db: Database, m: Manifest, metric: Metric, refs: seq<GroupRef>, refs': seq<GroupRef>)
    requires forall g :: g in refs <==> g in refs'
    ensures Meaning(db, m, metric, refs) == Meaning(db, m, metric, refs')
  {
    var base := metric.entityId;
    var s, t := Involved(base, refs)[1..], Involved(base, refs')[1..];
    OthersSameSet(base, refs, refs');
    var rows := Sql.Table(db, base);
    JoinedPermutation(db, m.joins, base, s, t, rows);
    var ts, ts' := Joined(db, m.joins, base, s, rows), Joined(db, m.joins, base, t, rows);
    KeysPermutation(ts, ts', refs, refs');
    forall key | key in KeysOf(ts, refs)
      ensures Meaning(db, m, metric, refs)[key] == Meaning(db, m, metric, refs')[key]
    {
      ValuesPermutation(ts, ts', refs, refs', base, metric.field, key);
      Sql.TallyPermutation(ValuesIn(ts, refs, base, metric.field, key), ValuesIn(ts', refs', base, metric.field, key));
    }
  }

  lemma OthersSameSet(base: string, refs: seq<GroupRef>, refs': seq<GroupRef>)
    requires forall g :: g in refs <==> g in refs'
    ensures var s, t := Involved(base, refs)[1..], Involved(base, refs')[1..];
            && base !in s && base !in t && (forall x :: x in s <==> x in t)
            && (forall i, j | 0 <= i < j < |s| :: s[i] != s[j]) && (forall i, j | 0 <= i < j < |t| :: t[i] != t[j])
  {
    OthersFacts(base, refs);
    OthersFacts(base, refs');
  }

  lemma OthersFacts(base: string, refs: seq<GroupRef>)
    ensures var s := Involved(base, refs)[1..];
            && base !in s && (forall i, j | 0 <= i < j < |s| :: s[i] != s[j])
            && forall x :: x in s <==> x != base && exists g :: g in refs && g.entity == x
  {
    InvolvedFacts(base, refs);
    var all := Involved(base, refs);
    assert all == [base] + all[1..];
    forall x ensures x in all[1..] <==> x in all && x != base {
      if x in all && x != base {
        var i :| 0 <= i < |all| && all[i] == x;
        assert all[1..][i - 1] == x;
      }
    }
  }

  /** The SQL compiled for one order of the group_by list and the SQL compiled for another give every group the
      same metric, although aliases, join order and column order differ. */
  lemma SqlIgnoresGroupOrder(db: Database, m: Manifest, metric: Metric, refs: seq<GroupRef>, refs': seq<GroupRef>,
                             select: Sql.Select, select': Sql.Select, key: GroupKey)
    requires NormalForm(m) && metric in m.metrics && forall g :: g in refs <==> g in refs'
    requires Compile(m, metric, refs) == Ok(select) && Compile(m, metric, refs') == Ok(select')
    requires OnlyInnerAndLeft(select) && OnlyInnerAndLeft(select') && key in Meaning(db, m, metric, refs)
    ensures KeyValues(refs, key) in Sql.Evaluate(db, select) && KeyValues(refs', key) in Sql.Evaluate(db, select')
    ensures Sql.Evaluate(db, select)[KeyValues(refs, key)] == Sql.Evaluate(db, select')[KeyValues(refs', key)]
  {
    MeaningIgnoresGroupOrder(db, m, metric, refs, refs');
    SqlMeansQuery(db, m, metric, refs, select);
    SqlMeansQuery(db, m, metric, refs', select');
  }
}
