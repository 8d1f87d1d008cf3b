/** The printer against the lexer: the words of a compiled query, and exactly when the read-only check passes it. The
    text is lexed part by part: no two words of the rendering touch, so its tokens are the words of the syntax tree. */
module QuerySafety {
  import opened Sequences
  import opened Text
  import opened Semantic
  import opened SemanticBinding
  import opened Executor
  import StarJoin
  import Sql

  // ----- the words of a query, in order -----

  function WordsOf<T>(words: T -> seq<string>, xs: seq<T>): seq<string> {
    if xs == [] then [] else WordsOf(words, xs[..|xs| - 1]) + words(xs[|xs| - 1])
  }

  function ColumnWords(c: Sql.Column): seq<string> {
    [c.alias, c.name]
  }

  function ItemWords(i: Sql.SelectItem): seq<string> {
    ColumnWords(i.column) + ["as"] + [i.output]
  }

  function AggregateWords(a: Sql.Aggregate): seq<string> {
    match a.arg
    case None => ["count"]
    case Some(c) => [a.fn] + ColumnWords(c)
  }

  function KindWords(k: Sql.JoinKind): seq<string> {
    match k
    case InnerJoin => ["inner", "join"]
    case LeftJoin => ["left", "join"]
    case RightJoin => ["right", "join"]
    case FullJoin => ["full", "outer", "join"]
  }

  function JoinWords(j: Sql.JoinClause): seq<string> {
    KindWords(j.kind) + ["gold"] + [j.table] + ["as"] + [j.alias] + ["on"] + ColumnWords(j.left) + ColumnWords(j.right)
  }

  function QueryWords(s: Sql.Select): seq<string> {
    ["select"] + (WordsOf(ItemWords, s.items) + (AggregateWords(s.metric) + ["as", "metric_value"]))
    + ["from", "gold"] + [s.table] + ["as"] + [s.alias]
    + WordsOf(JoinWords, s.joins)
    + if s.groupBy == [] then [] else ["group", "by"] + WordsOf(ColumnWords, s.groupBy)
  }

  // ----- every name in the query is an identifier -----

  ghost predicate ColumnNamed(c: Sql.Column) {
    IsIdent(c.alias) && IsIdent(c.name)
  }

  ghost predicate ItemNamed(i: Sql.SelectItem) {
    ColumnNamed(i.column) && IsIdent(i.output)
  }

  ghost predicate JoinNamed(j: Sql.JoinClause) {
    IsIdent(j.table) && IsIdent(j.alias) && ColumnNamed(j.left) && ColumnNamed(j.right)
  }

  ghost predicate AllNamed(s: Sql.Select) {
    && (forall i | i in s.items :: ItemNamed(i)) && (forall j | j in s.joins :: JoinNamed(j))
    && (forall c | c in s.groupBy :: ColumnNamed(c)) && IsIdent(s.table) && IsIdent(s.alias)
    && (s.metric.arg.Some? ==> IsIdent(s.metric.fn) && ColumnNamed(s.metric.arg.value))
  }

  // ----- lexing piece by piece -----

  predicate Noise(s: string) {
    s != [] && forall i | 0 <= i < |s| :: !IsIdentChar(s[i])
  }

  /** A text whose last character cannot be continued by a word, or the first by one before it. */
  predicate Fenced(s: string) {
    s != [] && !IsIdentChar(s[0]) && !IsIdentChar(s[|s| - 1])
  }

  lemma TokensAround(a: string, mid: string, b: string)
    requires Fenced(mid)
    ensures Tokens(a + mid + b) == Tokens(a) + Tokens(mid) + Tokens(b)
  {
    TokensConcat(a, mid);
    TokensConcat(a + mid, b);
    assert (a + mid)[|a + mid| - 1] == mid[|mid| - 1];
  }

  lemma FencedWord(left: string, w: string, right: string)
    requires Noise(left) && IsIdent(w) && Noise(right)
    ensures Fenced(left + w + right) && Tokens(left + w + right) == [w]
  {
    TokensConcat(left, w);
    TokensConcat(left + w, right);
    TokensOfNoise(left);
    TokensOfNoise(right);
    TokensOfIdent(w);
  }

  lemma {:induction false} TokensOfJoined(sep: string, parts: seq<string>, words: seq<seq<string>>)
    requires Noise(sep) && |words| == |parts| && forall i | 0 <= i < |parts| :: Tokens(parts[i]) == words[i]
    ensures Tokens(JoinWith(sep, parts)) == Flat(words)
  {
    if |parts| == 1 {
      assert words[..0] == [];
    } else if |parts| > 1 {
      TokensOfJoined(sep, parts[..|parts| - 1], words[..|words| - 1]);
      TokensAround(JoinWith(sep, parts[..|parts| - 1]), sep, parts[|parts| - 1]);
      TokensOfNoise(sep);
    }
  }

  function Flat(words: seq<seq<string>>): seq<string> {
    if words == [] then [] else Flat(words[..|words| - 1]) + words[|words| - 1]
  }

  lemma {:induction false} FlatIsWordsOf<T>(words: T -> seq<string>, xs: seq<T>)
    ensures Flat(Mapped(words, xs)) == WordsOf(words, xs)
  {
    if xs != [] {
      FlatIsWordsOf(words, xs[..|xs| - 1]);
      assert Mapped(words, xs)[..|xs| - 1] == Mapped(words, xs[..|xs| - 1]);
    }
  }

  lemma ColumnLexes(c: Sql.Column)
    requires ColumnNamed(c)
    ensures Tokens(Sql.ColumnText(c)) == ColumnWords(c)
  {
    TokensAround(c.alias, ".", c.name);
    TokensOfNoise(".");
    TokensOfIdent(c.alias);
    TokensOfIdent(c.name);
  }

  lemma ItemLexes(i: Sql.SelectItem)
    requires ItemNamed(i)
    ensures Tokens(Sql.ItemText(i)) == ItemWords(i)
  {
    ColumnLexes(i.column);
    FencedWord(" ", "as", " ");
    assert " as " == " " + "as" + " ";
    TokensAround(Sql.ColumnText(i.column), " as ", i.output);
    TokensOfIdent(i.output);
  }

  lemma AggregateLexes(a: Sql.Aggregate)
    requires a.arg.Some? ==> IsIdent(a.fn) && ColumnNamed(a.arg.value)
    ensures Tokens(Sql.AggregateText(a)) == AggregateWords(a)
  {
    match a.arg
    case None => CountLexes();
    case Some(c) =>
      ColumnLexes(c);
      TokensOfNoise("(");
      TokensOfNoise(")");
      CallLexes(a.fn, "(", Sql.ColumnText(c), ")");
  }

  lemma CountLexes()
    ensures Tokens("count(*)") == ["count"]
  {
    TokensConcat("count", "(*)");
    TokensOfNoise("(*)");
    TokensOfIdent("count");
    assert "count(*)" == "count" + "(*)";
  }

  lemma CallLexes(fn: string, open: string, arg: string, close: string)
    requires IsIdent(fn) && Fenced(open) && Tokens(open) == [] && Fenced(close) && Tokens(close) == []
    ensures Tokens(fn + open + arg + close) == [fn] + Tokens(arg)
  {
    TokensAround(fn, open, arg);
    TokensConcat(fn + open + arg, close);
    TokensOfIdent(fn);
  }

  lemma KindLexes(k: Sql.JoinKind)
    ensures Tokens(Sql.KindText(k)) == KindWords(k)
  {
    match k
    case InnerJoin => InnerLexes();
    case LeftJoin => LeftLexes();
    case RightJoin => RightLexes();
    case FullJoin => FullLexes();
  }

  // the fixed phrases

  lemma TwoWords(a: string, b: string, phrase: string)
    requires IsIdent(a) && IsIdent(b) && phrase == a + " " + b
    ensures Tokens(phrase) == [a, b]
  {
    TokensAround(a, " ", b);
    TokensOfNoise(" ");
    TokensOfIdent(a);
    TokensOfIdent(b);
  }

  lemma FencedPhrase(left: string, w: string, right: string, phrase: string)
    requires Noise(left) && IsIdent(w) && Noise(right) && phrase == left + w + right
    ensures Fenced(phrase) && Tokens(phrase) == [w]
  {
    FencedWord(left, w, right);
  }

  /** left a between b, right */
  lemma LedPhrase(left: string, a: string, between: string, b: string, right: string, phrase: string)
    requires Noise(left) && IsIdent(a) && Noise(between) && IsIdent(b)
    requires (right == "" || Noise(right)) && phrase == left + a + between + b + right
    ensures phrase != "" && !IsIdentChar(phrase[0]) && (right != "" ==> Fenced(phrase)) && Tokens(phrase) == [a, b]
  {
    FencedWord(left, a, between);
    TokensConcat(left + a + between, b);
    TokensOfIdent(b);
    TokensConcat(left + a + between + b, right);
    TokensOfNoise(right);
  }

  lemma InnerLexes() ensures Tokens("inner join") == ["inner", "join"] { TwoWords("inner", "join", "inner join"); }
  lemma LeftLexes() ensures Tokens("left join") == ["left", "join"] { TwoWords("left", "join", "left join"); }
  lemma RightLexes() ensures Tokens("right join") == ["right", "join"] { TwoWords("right", "join", "right join"); }

  lemma ThreeWords(a: string, b: string, c: string, phrase: string)
    requires IsIdent(a) && IsIdent(b) && IsIdent(c) && phrase == a + " " + b + " " + c
    ensures Tokens(phrase) == [a, b, c]
  {
    TwoWords(a, b, a + " " + b);
    TokensAround(a + " " + b, " ", c);
    TokensOfNoise(" ");
    TokensOfIdent(c);
  }

  lemma FullLexes()
    ensures Tokens("full outer join") == ["full", "outer", "join"]
  {
    ThreeWords("full", "outer", "join", "full outer join");
  }

  lemma GoldLexes() ensures Fenced(" gold.") && Tokens(" gold.") == ["gold"] { FencedPhrase(" ", "gold", ".", " gold."); }
  lemma AsLexes() ensures Fenced(" as ") && Tokens(" as ") == ["as"] { FencedPhrase(" ", "as", " ", " as "); }
  lemma OnLexes() ensures Fenced(" on ") && Tokens(" on ") == ["on"] { FencedPhrase(" ", "on", " ", " on "); }
  lemma EqualsLexes() ensures Fenced(" = ") && Tokens(" = ") == [] { TokensOfNoise(" = "); }

  lemma MetricValueLexes()
    ensures !IsIdentChar(" as metric_value"[0]) && Tokens(" as metric_value") == ["as", "metric_value"]
  {
    LedPhrase(" ", "as", " ", "metric_value", "", " as metric_value");
  }

  lemma GroupByLexes()
    ensures Fenced(" group by ") && Tokens(" group by ") == ["group", "by"]
  {
    LedPhrase(" ", "group", " ", "by", " ", " group by ");
  }

  lemma FromLexes()
    ensures Fenced(" " + "from gold.") && Tokens(" " + "from gold.") == ["from", "gold"]
  {
    LedPhrase(" ", "from", " ", "gold", ".", " " + "from gold.");
  }

  lemma SelectLexes()
    ensures Tokens("select ") == ["select"] && !IsIdentChar("select "[6])
  {
    TokensOfIdent("select");
    TokensOfNoise(" ");
    TokensConcat("select", " ");
    assert "select " == "select" + " ";
  }

  lemma TokensOfJoinText(kind: string, gold: string, table: string, as_: string, alias: string, on_: string,
                         left: string, equals: string, right: string)
    requires Fenced(gold) && Fenced(as_) && Fenced(on_) && Fenced(equals)
    ensures Tokens(kind + gold + table + as_ + alias + on_ + left + equals + right)
            == Tokens(kind) + Tokens(gold) + Tokens(table) + Tokens(as_) + Tokens(alias) + Tokens(on_)
               + Tokens(left) + Tokens(equals) + Tokens(right)
  {
    TokensAround(kind, gold, table);
    TokensAround(kind + gold + table, as_, alias);
    TokensAround(kind + gold + table + as_ + alias, on_, left);
    TokensAround(kind + gold + table + as_ + alias + on_ + left, equals, right);
  }

  lemma JoinLexes(j: Sql.JoinClause)
    requires JoinNamed(j)
    ensures Tokens(Sql.JoinText(j)) == JoinWords(j)
  {
    GoldLexes();
    AsLexes();
    OnLexes();
    EqualsLexes();
    KindLexes(j.kind);
    ColumnLexes(j.left);
    ColumnLexes(j.right);
    TokensOfIdent(j.table);
    TokensOfIdent(j.alias);
    TokensOfJoinText(Sql.KindText(j.kind), " gold.", j.table, " as ", j.alias, " on ",
                     Sql.ColumnText(j.left), " = ", Sql.ColumnText(j.right));
  }

  lemma ListLexes(items: seq<Sql.SelectItem>, metric: string, metricWords: seq<string>)
    requires Tokens(metric) == metricWords && forall i | i in items :: ItemNamed(i)
    ensures Tokens(JoinWith(", ", Mapped(Sql.ItemText, items) + [metric])) == WordsOf(ItemWords, items) + metricWords
  {
    var parts, words := Mapped(Sql.ItemText, items) + [metric], Mapped(ItemWords, items) + [metricWords];
    MappedAt(Sql.ItemText, items);
    MappedAt(ItemWords, items);
    forall i | 0 <= i < |parts| ensures Tokens(parts[i]) == words[i] {
      if i < |items| { ItemLexes(items[i]); }
    }
    TokensOfJoined(", ", parts, words);
    assert words[..|words| - 1] == Mapped(ItemWords, items);
    FlatIsWordsOf(ItemWords, items);
  }

  lemma ItemsLex(s: Sql.Select)
    requires AllNamed(s)
    ensures Tokens(JoinWith(", ", Mapped(Sql.ItemText, s.items) + [Sql.AggregateText(s.metric) + " as metric_value"]))
            == WordsOf(ItemWords, s.items) + (AggregateWords(s.metric) + ["as", "metric_value"])
  {
    MetricValueLexes();
    AggregateLexes(s.metric);
    TokensConcat(Sql.AggregateText(s.metric), " as metric_value");
    ListLexes(s.items, Sql.AggregateText(s.metric) + " as metric_value", AggregateWords(s.metric) + ["as", "metric_value"]);
  }

  lemma JoinsLex(s: Sql.Select)
    requires AllNamed(s)
    ensures Tokens(if s.joins != [] then " " + JoinWith(" ", Mapped(Sql.JoinText, s.joins)) else "")
            == WordsOf(JoinWords, s.joins)
  {
    MappedAt(Sql.JoinText, s.joins);
    MappedAt(JoinWords, s.joins);
    var parts, words := Mapped(Sql.JoinText, s.joins), Mapped(JoinWords, s.joins);
    forall i | 0 <= i < |parts| ensures Tokens(parts[i]) == words[i] { JoinLexes(s.joins[i]); }
    TokensOfJoined(" ", parts, words);
    FlatIsWordsOf(JoinWords, s.joins);
    TokensOfNoise(" ");
    TokensConcat(" ", JoinWith(" ", parts));
  }

  lemma GroupLexes(s: Sql.Select)
    requires AllNamed(s)
    ensures Tokens(if s.groupBy != [] then " group by " + JoinWith(", ", Mapped(Sql.ColumnText, s.groupBy)) else "")
            == if s.groupBy == [] then [] else ["group", "by"] + WordsOf(ColumnWords, s.groupBy)
  {
    MappedAt(Sql.ColumnText, s.groupBy);
    MappedAt(ColumnWords, s.groupBy);
    var parts, words := Mapped(Sql.ColumnText, s.groupBy), Mapped(ColumnWords, s.groupBy);
    forall i | 0 <= i < |parts| ensures Tokens(parts[i]) == words[i] { ColumnLexes(s.groupBy[i]); }
    TokensOfJoined(", ", parts, words);
    FlatIsWordsOf(ColumnWords, s.groupBy);
    GroupByLexes();
    TokensConcat(" group by ", JoinWith(", ", parts));
  }

  lemma TokensOfSelectText(select: string, list: string, from: string, table: string, as_: string, alias: string,
                           joins: string, group: string)
    requires select != "" && !IsIdentChar(select[|select| - 1]) && Fenced(from) && Fenced(as_)
    requires joins == "" || !IsIdentChar(joins[0])
    requires group == "" || !IsIdentChar(group[0])
    ensures Tokens(select + list + from + table + as_ + alias + joins + group)
            == Tokens(select) + Tokens(list) + Tokens(from) + Tokens(table) + Tokens(as_) + Tokens(alias)
               + Tokens(joins) + Tokens(group)
  {
    TokensConcat(select, list);
    TokensAround(select + list, from, table);
    TokensAround(select + list + from + table, as_, alias);
    TokensConcat(select + list + from + table + as_ + alias, joins);
    TokensConcat(select + list + from + table + as_ + alias + joins, group);
  }

  /** The rendered query lexes to exactly its words. */
  lemma QueryLexes(s: Sql.Select)
    requires AllNamed(s)
    ensures Tokens(Sql.SelectText(s)) == QueryWords(s)
  {
    var list := JoinWith(", ", Mapped(Sql.ItemText, s.items) + [Sql.AggregateText(s.metric) + " as metric_value"]);
    var joins := if s.joins != [] then " " + JoinWith(" ", Mapped(Sql.JoinText, s.joins)) else "";
    var group := if s.groupBy != [] then " group by " + JoinWith(", ", Mapped(Sql.ColumnText, s.groupBy)) else "";
    ItemsLex(s);
    JoinsLex(s);
    GroupLexes(s);
    FromLexes();
    SelectLexes();
    AsLexes();
    TokensOfIdent(s.table);
    TokensOfIdent(s.alias);
    WordsOfSelectText("select ", list, " " + "from gold.", s.table, " as ", s.alias, joins, group,
                      ["select"], WordsOf(ItemWords, s.items) + (AggregateWords(s.metric) + ["as", "metric_value"]),
                      ["from", "gold"], ["as"], WordsOf(JoinWords, s.joins),
                      if s.groupBy == [] then [] else ["group", "by"] + WordsOf(ColumnWords, s.groupBy));
    SelectTextParts(s, list, joins, group);
  }

  lemma WordsOfSelectText(select: string, list: string, from: string, table: string, as_: string, alias: string,
                          joins: string, group: string, w: seq<string>, listWords: seq<string>, fromWords: seq<string>,
                          asWords: seq<string>, joinsWords: seq<string>, groupWords: seq<string>)
    requires select != "" && !IsIdentChar(select[|select| - 1]) && Fenced(from) && Fenced(as_)
    requires joins == "" || !IsIdentChar(joins[0])
    requires group == "" || !IsIdentChar(group[0])
    requires Tokens(select) == w && Tokens(list) == listWords && Tokens(from) == fromWords && Tokens(as_) == asWords
    requires Tokens(joins) == joinsWords && Tokens(group) == groupWords
    requires Tokens(table) == [table] && Tokens(alias) == [alias]
    ensures Tokens(select + list + from + table + as_ + alias + joins + group)
         == w + listWords + fromWords + [table] + asWords + [alias] + joinsWords + groupWords
  {
    TokensOfSelectText(select, list, from, table, as_, alias, joins, group);
  }

  lemma SelectTextParts(s: Sql.Select, list: string, joins: string, group: string)
    requires list == JoinWith(", ", Mapped(Sql.ItemText, s.items) + [Sql.AggregateText(s.metric) + " as metric_value"])
    requires joins == if s.joins != [] then " " + JoinWith(" ", Mapped(Sql.JoinText, s.joins)) else ""
    requires group == if s.groupBy != [] then " group by " + JoinWith(", ", Mapped(Sql.ColumnText, s.groupBy)) else ""
    ensures Sql.SelectText(s) == "select " + list + (" " + "from gold.") + s.table + " as " + s.alias + joins + group
  {
    ConcatAssociative("select " + list, " ", "from gold.");
  }

  // ----- when the check passes -----

  predicate Harmless(w: string) {
    Lower(w) !in UNSAFE_SQL_KEYWORDS
  }

  predicate AllHarmless(words: seq<string>) {
    forall w | w in words :: Harmless(w)
  }

  lemma HarmlessConcat(a: seq<string>, b: seq<string>)
    ensures AllHarmless(a + b) <==> AllHarmless(a) && AllHarmless(b)
  {
    if AllHarmless(a + b) {
      forall w | w in a ensures Harmless(w) { assert w in a + b; }
      forall w | w in b ensures Harmless(w) { assert w in a + b; }
    }
  }

  lemma {:induction false} HarmlessWordsOf<T>(words: T -> seq<string>, xs: seq<T>)
    ensures AllHarmless(WordsOf(words, xs)) <==> forall x | x in xs :: AllHarmless(words(x))
  {
    if xs != [] {
      HarmlessWordsOf(words, xs[..|xs| - 1]);
      HarmlessConcat(WordsOf(words, xs[..|xs| - 1]), words(xs[|xs| - 1]));
      FrontMultiset(xs);
      assert forall x :: x in xs <==> x in xs[..|xs| - 1] || x == xs[|xs| - 1];
    }
  }

  predicate IsFixedWord(w: string) {
    w in {"select", "as", "metric_value", "from", "gold", "inner", "left", "right", "full", "outer", "join", "on",
          "group", "by"}
  }

  lemma FixedWordHarmless(w: string)
    requires IsFixedWord(w) || w in AGGREGATIONS
    ensures Harmless(w)
  {
    FixedWordSafe(w);
    FixedWordLower(w);
    LowerFixed(w);
  }

  lemma FixedWordSafe(w: string)
    requires IsFixedWord(w) || w in AGGREGATIONS
    ensures w !in UNSAFE_SQL_KEYWORDS
  {
  }

  lemma FixedWordLower(w: string)
    requires IsFixedWord(w) || w in AGGREGATIONS
    ensures IsLower(w)
  {
  }

  lemma AliasHarmless(n: nat)
    ensures IsIdent(Alias(n)) && Harmless(Alias(n))
  {
    var w := Alias(n);
    assert IsLower(w);
    LowerFixed(w);
    assert w[0] == 't' && '0' <= w[1] <= '9';
    DigitSecondHarmless(w);
  }

  lemma DigitSecondHarmless(w: string)
    requires |w| > 1 && w[0] == 't' && '0' <= w[1] <= '9'
    ensures w !in UNSAFE_SQL_KEYWORDS
  {
  }

  lemma DoubleUnderscoreHarmless(w: string, k: nat)
    requires k + 1 < |w| && w[k] == '_' && w[k + 1] == '_'
    ensures w !in UNSAFE_SQL_KEYWORDS
  {
  }

  lemma OutputHarmless(entity: string, column: string)
    ensures Harmless(entity + "__" + column)
  {
    var w := entity + "__" + column;
    assert w[|entity|] == '_' && w[|entity| + 1] == '_';
    DoubleUnderscoreHarmless(Lower(w), |entity|);
  }

  lemma ItemHarmless(i: Sql.SelectItem, n: nat, entity: string)
    requires i.column.alias == Alias(n) && i.output == entity + "__" + i.column.name
    ensures AllHarmless(ItemWords(i)) <==> Harmless(i.column.name)
  {
    AliasHarmless(n);
    OutputHarmless(entity, i.column.name);
    FixedWordHarmless("as");
    SecondDecides(ItemWords(i), i.column.alias, i.column.name, "as", i.output);
  }

  lemma SecondDecides(words: seq<string>, a: string, b: string, c: string, d: string)
    requires words == [a, b, c, d] && Harmless(a) && Harmless(c) && Harmless(d)
    ensures AllHarmless(words) <==> Harmless(b)
  {
    assert b in words;
  }

  lemma ColumnHarmless(c: Sql.Column, n: nat)
    requires c.alias == Alias(n)
    ensures AllHarmless(ColumnWords(c)) <==> Harmless(c.name)
  {
    AliasHarmless(n);
    assert c.name in ColumnWords(c);
  }

  lemma KindHarmless(k: Sql.JoinKind)
    ensures AllHarmless(KindWords(k))
  {
    FixedWordHarmless("join");
    match k
    case InnerJoin => FixedWordHarmless("inner");
    case LeftJoin => FixedWordHarmless("left");
    case RightJoin => FixedWordHarmless("right");
    case FullJoin =>
      FixedWordHarmless("full");
      FixedWordHarmless("outer");
  }

  lemma SingleHarmless(w: string)
    ensures AllHarmless([w]) <==> Harmless(w)
  {
    assert w in [w];
  }

  lemma JoinHarmless(j: Sql.JoinClause, n: nat, left: nat, right: nat)
    requires j.alias == Alias(n) && j.left.alias == Alias(left) && j.right.alias == Alias(right)
    ensures AllHarmless(JoinWords(j)) <==> Harmless(j.table) && Harmless(j.left.name) && Harmless(j.right.name)
  {
    var a := KindWords(j.kind) + ["gold"];
    KindHarmless(j.kind);
    FixedWordHarmless("gold");
    FixedWordHarmless("as");
    FixedWordHarmless("on");
    AliasHarmless(n);
    ColumnHarmless(j.left, left);
    ColumnHarmless(j.right, right);
    SingleHarmless("gold");
    SingleHarmless(j.table);
    SingleHarmless("as");
    SingleHarmless(j.alias);
    SingleHarmless("on");
    HarmlessConcat(KindWords(j.kind), ["gold"]);
    HarmlessConcat(a, [j.table]);
    HarmlessConcat(a + [j.table], ["as"]);
    HarmlessConcat(a + [j.table] + ["as"], [j.alias]);
    HarmlessConcat(a + [j.table] + ["as"] + [j.alias], ["on"]);
    HarmlessConcat(a + [j.table] + ["as"] + [j.alias] + ["on"], ColumnWords(j.left));
    HarmlessConcat(a + [j.table] + ["as"] + [j.alias] + ["on"] + ColumnWords(j.left), ColumnWords(j.right));
  }

  // ----- compiled queries -----

  ghost predicate ColumnShaped(c: Sql.Column) {
    IsIdent(c.name) && exists n: nat :: c.alias == Alias(n)
  }

  ghost predicate ItemShaped(i: Sql.SelectItem) {
    ColumnShaped(i.column) && exists e :: IsIdent(e) && i.output == e + "__" + i.column.name
  }

  ghost predicate JoinShaped(j: Sql.JoinClause) {
    IsIdent(j.table) && (exists n: nat :: j.alias == Alias(n)) && ColumnShaped(j.left) && ColumnShaped(j.right)
  }

  /** Aliases are t0, t1, ..; outputs are entity__column; everything else is an identifier. */
  ghost predicate Shaped(s: Sql.Select) {
    && (forall i | i in s.items :: ItemShaped(i)) && (forall j | j in s.joins :: JoinShaped(j))
    && (forall c | c in s.groupBy :: ColumnShaped(c)) && IsIdent(s.table) && s.alias == Alias(0)
    && s.metric.arg.Some? && s.metric.fn in AGGREGATIONS && ColumnShaped(s.metric.arg.value)
  }

  lemma ColumnShapedNamed(c: Sql.Column)
    requires ColumnShaped(c)
    ensures ColumnNamed(c) && (AllHarmless(ColumnWords(c)) <==> Harmless(c.name))
  {
    var n: nat :| c.alias == Alias(n);
    AliasHarmless(n);
    ColumnHarmless(c, n);
  }

  lemma ItemShapedNamed(i: Sql.SelectItem)
    requires ItemShaped(i)
    ensures ItemNamed(i) && (AllHarmless(ItemWords(i)) <==> Harmless(i.column.name))
  {
    var n: nat :| i.column.alias == Alias(n);
    var e :| IsIdent(e) && i.output == e + "__" + i.column.name;
    AliasHarmless(n);
    OutputIdent(e, i.column.name);
    ItemHarmless(i, n, e);
  }

  lemma OutputIdent(entity: string, column: string)
    requires IsIdent(entity) && IsIdent(column)
    ensures IsIdent(entity + "__" + column)
  {
    var w := entity + "__" + column;
    forall k | 0 <= k < |w| ensures IsIdentChar(w[k]) {
      if k < |entity| {
        assert w[k] == entity[k];
      } else if k >= |entity| + 2 {
        assert w[k] == column[k - |entity| - 2];
      }
    }
  }

  lemma JoinShapedNamed(j: Sql.JoinClause)
    requires JoinShaped(j)
    ensures JoinNamed(j)
    ensures AllHarmless(JoinWords(j)) <==> ClauseHarmless(j)
  {
    var n: nat :| j.alias == Alias(n);
    var l: nat :| j.left.alias == Alias(l);
    var r: nat :| j.right.alias == Alias(r);
    AliasHarmless(n);
    ColumnShapedNamed(j.left);
    ColumnShapedNamed(j.right);
    JoinHarmless(j, n, l, r);
  }

  lemma ShapedNamed(s: Sql.Select)
    requires Shaped(s)
    ensures AllNamed(s)
  {
    forall i | i in s.items ensures ItemNamed(i) { ItemShapedNamed(i); }
    forall j | j in s.joins ensures JoinNamed(j) { JoinShapedNamed(j); }
    forall c | c in s.groupBy ensures ColumnNamed(c) { ColumnShapedNamed(c); }
    ColumnShapedNamed(s.metric.arg.value);
    AliasHarmless(0);
    AggregationIdent(s.metric.fn);
  }

  lemma AggregationIdent(fn: string)
    requires fn in AGGREGATIONS
    ensures IsIdent(fn)
  {
    KeywordLetters(fn);
  }

  lemma MetricHarmless(a: Sql.Aggregate)
    requires a.arg.Some? && a.fn in AGGREGATIONS && ColumnShaped(a.arg.value)
    ensures AllHarmless(AggregateWords(a) + ["as", "metric_value"]) <==> Harmless(a.arg.value.name)
  {
    FixedWordHarmless(a.fn);
    ColumnShapedNamed(a.arg.value);
    SingleHarmless(a.fn);
    FixedWordHarmless("as");
    FixedWordHarmless("metric_value");
    HarmlessConcat([a.fn], ColumnWords(a.arg.value));
    HarmlessConcat(AggregateWords(a), ["as", "metric_value"]);
  }

  lemma ItemsHarmless(s: Sql.Select)
    requires Shaped(s)
    ensures AllHarmless(["select"] + (WordsOf(ItemWords, s.items) + (AggregateWords(s.metric) + ["as", "metric_value"])))
            <==> (forall i | i in s.items :: Harmless(i.column.name)) && Harmless(s.metric.arg.value.name)
  {
    var tail := AggregateWords(s.metric) + ["as", "metric_value"];
    forall i | i in s.items ensures AllHarmless(ItemWords(i)) <==> Harmless(i.column.name) { ItemShapedNamed(i); }
    HarmlessWordsOf(ItemWords, s.items);
    MetricHarmless(s.metric);
    HarmlessConcat(WordsOf(ItemWords, s.items), tail);
    FixedWordHarmless("select");
    SingleHarmless("select");
    HarmlessConcat(["select"], WordsOf(ItemWords, s.items) + tail);
  }

  lemma GroupHarmless(s: Sql.Select)
    requires Shaped(s)
    ensures AllHarmless(if s.groupBy == [] then [] else ["group", "by"] + WordsOf(ColumnWords, s.groupBy))
            <==> forall c | c in s.groupBy :: Harmless(c.name)
  {
    forall c | c in s.groupBy ensures AllHarmless(ColumnWords(c)) <==> Harmless(c.name) { ColumnShapedNamed(c); }
    HarmlessWordsOf(ColumnWords, s.groupBy);
    FixedWordHarmless("group");
    FixedWordHarmless("by");
    HarmlessConcat(["group", "by"], WordsOf(ColumnWords, s.groupBy));
  }

  predicate ClauseHarmless(j: Sql.JoinClause) {
    Harmless(j.table) && Harmless(j.left.name) && Harmless(j.right.name)
  }

  /** The names of a query that come from the manifest or the request. */
  ghost predicate NamesHarmless(s: Sql.Select)
    requires s.metric.arg.Some?
  {
    && (forall i | i in s.items :: Harmless(i.column.name)) && Harmless(s.metric.arg.value.name) && Harmless(s.table)
    && (forall j | j in s.joins :: ClauseHarmless(j))
    && (forall c | c in s.groupBy :: Harmless(c.name))
  }

  lemma QueryHarmless(s: Sql.Select)
    requires Shaped(s)
    ensures AllHarmless(QueryWords(s)) <==> NamesHarmless(s)
  {
    var a := ["select"] + (WordsOf(ItemWords, s.items) + (AggregateWords(s.metric) + ["as", "metric_value"]));
    var g := if s.groupBy == [] then [] else ["group", "by"] + WordsOf(ColumnWords, s.groupBy);
    ItemsHarmless(s);
    GroupHarmless(s);
    forall j | j in s.joins ensures AllHarmless(JoinWords(j)) <==> ClauseHarmless(j) { JoinShapedNamed(j); }
    HarmlessWordsOf(JoinWords, s.joins);
    FromHarmless(a, s.table, s.alias, WordsOf(JoinWords, s.joins), g);
  }

  lemma FromHarmless(a: seq<string>, table: string, alias: string, joins: seq<string>, g: seq<string>)
    requires alias == Alias(0)
    ensures AllHarmless(a + ["from", "gold"] + [table] + ["as"] + [alias] + joins + g)
            <==> AllHarmless(a) && Harmless(table) && AllHarmless(joins) && AllHarmless(g)
  {
    FixedWordHarmless("from");
    FixedWordHarmless("gold");
    FixedWordHarmless("as");
    AliasHarmless(0);
    SingleHarmless("as");
    SingleHarmless(table);
    SingleHarmless(alias);
    SixHarmless(a, ["from", "gold"], [table], ["as"], [alias], joins, g);
  }

  lemma SixHarmless(a: seq<string>, from: seq<string>, table: seq<string>, as_: seq<string>, alias: seq<string>,
                    joins: seq<string>, g: seq<string>)
    requires AllHarmless(from) && AllHarmless(as_) && AllHarmless(alias)
    ensures AllHarmless(a + from + table + as_ + alias + joins + g)
            <==> AllHarmless(a) && AllHarmless(table) && AllHarmless(joins) && AllHarmless(g)
  {
    HarmlessConcat(a, from);
    HarmlessConcat(a + from, table);
    HarmlessConcat(a + from + table, as_);
    HarmlessConcat(a + from + table + as_, alias);
    HarmlessConcat(a + from + table + as_ + alias, joins);
    HarmlessConcat(a + from + table + as_ + alias + joins, g);
  }

  // ----- the text around the words -----

  /** No semicolon, and no space at either end. */
  predicate Solid(s: string) {
    s != [] && !IsSpace(s[0]) && !IsSpace(s[|s| - 1]) && ';' !in s
  }

  lemma SolidIdent(w: string)
    requires IsIdent(w)
    ensures Solid(w)
  {
    assert IsIdentChar(w[0]) && IsIdentChar(w[|w| - 1]);
  }

  lemma SolidAround(a: string, mid: string, b: string)
    requires Solid(a) && ';' !in mid && Solid(b)
    ensures Solid(a + mid + b)
  {
  }

  lemma {:induction false} SolidJoined(sep: string, parts: seq<string>)
    requires ';' !in sep && parts != [] && forall p | p in parts :: Solid(p)
    ensures Solid(JoinWith(sep, parts))
  {
    assert parts[|parts| - 1] in parts;
    if |parts| > 1 {
      assert forall p | p in parts[..|parts| - 1] :: p in parts;
      SolidJoined(sep, parts[..|parts| - 1]);
      SolidAround(JoinWith(sep, parts[..|parts| - 1]), sep, parts[|parts| - 1]);
    }
  }

  lemma ColumnSolid(c: Sql.Column)
    requires ColumnNamed(c)
    ensures Solid(Sql.ColumnText(c))
  {
    SolidIdent(c.alias);
    SolidIdent(c.name);
    SolidAround(c.alias, ".", c.name);
  }

  lemma ItemSolid(i: Sql.SelectItem)
    requires ItemNamed(i)
    ensures Solid(Sql.ItemText(i))
  {
    ColumnSolid(i.column);
    SolidIdent(i.output);
    SolidAround(Sql.ColumnText(i.column), " as ", i.output);
  }

  lemma MetricSolid(a: Sql.Aggregate)
    requires a.arg.Some? && IsIdent(a.fn) && ColumnNamed(a.arg.value)
    ensures Solid(Sql.AggregateText(a) + " as metric_value")
  {
    SolidIdent(a.fn);
    ColumnSolid(a.arg.value);
    SolidAround(a.fn, "(", Sql.ColumnText(a.arg.value));
  }

  lemma JoinSolid(j: Sql.JoinClause)
    requires JoinNamed(j)
    ensures Solid(Sql.JoinText(j))
  {
    var kind := Sql.KindText(j.kind);
    assert Solid(kind);
    SolidIdent(j.table);
    SolidIdent(j.alias);
    ColumnSolid(j.left);
    ColumnSolid(j.right);
    SolidAround(kind, " gold.", j.table);
    SolidAround(kind + " gold." + j.table, " as ", j.alias);
    SolidAround(kind + " gold." + j.table + " as " + j.alias, " on ", Sql.ColumnText(j.left));
    SolidAround(kind + " gold." + j.table + " as " + j.alias + " on " + Sql.ColumnText(j.left), " = ",
                Sql.ColumnText(j.right));
  }

  lemma {:induction false} SolidMapped<T>(f: T -> string, xs: seq<T>)
    requires forall x | x in xs :: Solid(f(x))
    ensures forall p | p in Mapped(f, xs) :: Solid(p)
  {
    MappedAt(f, xs);
  }

  lemma SolidExtend(a: string, mid: string, b: string)
    requires Solid(a) && ';' !in mid && (b == "" || Solid(b))
    ensures Solid(if b == "" then a else a + (mid + b))
  {
  }

  function ListText(s: Sql.Select): string {
    JoinWith(", ", Mapped(Sql.ItemText, s.items) + [Sql.AggregateText(s.metric) + " as metric_value"])
  }

  function JoinsText(s: Sql.Select): string {
    JoinWith(" ", Mapped(Sql.JoinText, s.joins))
  }

  function GroupText(s: Sql.Select): string {
    JoinWith(", ", Mapped(Sql.ColumnText, s.groupBy))
  }

  lemma ListSolid(s: Sql.Select)
    requires AllNamed(s) && s.metric.arg.Some?
    ensures Solid(ListText(s))
  {
    forall i | i in s.items ensures Solid(Sql.ItemText(i)) { ItemSolid(i); }
    SolidMapped(Sql.ItemText, s.items);
    MetricSolid(s.metric);
    SolidJoined(", ", Mapped(Sql.ItemText, s.items) + [Sql.AggregateText(s.metric) + " as metric_value"]);
  }

  lemma JoinsSolid(s: Sql.Select)
    requires AllNamed(s)
    ensures if s.joins == [] then JoinsText(s) == "" else Solid(JoinsText(s))
  {
    forall j | j in s.joins ensures Solid(Sql.JoinText(j)) { JoinSolid(j); }
    SolidMapped(Sql.JoinText, s.joins);
    if s.joins != [] { SolidJoined(" ", Mapped(Sql.JoinText, s.joins)); }
  }

  lemma GroupSolid(s: Sql.Select)
    requires AllNamed(s)
    ensures if s.groupBy == [] then GroupText(s) == "" else Solid(GroupText(s))
  {
    forall c | c in s.groupBy ensures Solid(Sql.ColumnText(c)) { ColumnSolid(c); }
    SolidMapped(Sql.ColumnText, s.groupBy);
    if s.groupBy != [] { SolidJoined(", ", Mapped(Sql.ColumnText, s.groupBy)); }
  }

  /** The rendered query is one statement that stripping leaves alone and that starts with select. */
  lemma QuerySolid(s: Sql.Select)
    requires AllNamed(s) && s.metric.arg.Some?
    ensures Solid(Sql.SelectText(s)) && StartsWith(Lower(Sql.SelectText(s)), "select")
  {
    ListSolid(s);
    JoinsSolid(s);
    GroupSolid(s);
    SolidIdent(s.table);
    SolidIdent(s.alias);
    SolidSelect("select ", ListText(s), " " + "from gold.", s.table, " as ", s.alias, " ", JoinsText(s),
                " group by ", GroupText(s));
    SelectTextParts(s, ListText(s), if JoinsText(s) == "" then "" else " " + JoinsText(s),
                    if GroupText(s) == "" then "" else " group by " + GroupText(s));
    SelectStarts(s);
  }

  lemma SelectStarts(s: Sql.Select)
    ensures StartsWith(Lower(Sql.SelectText(s)), "select")
  {
    SelectTextParts(s, ListText(s), if s.joins == [] then "" else " " + JoinsText(s),
                    if s.groupBy == [] then "" else " group by " + GroupText(s));
    FirstPart("select ", ListText(s), " " + "from gold.", s.table, " as ", s.alias,
              if s.joins == [] then "" else " " + JoinsText(s), if s.groupBy == [] then "" else " group by " + GroupText(s));
    SelectKeyword();
    LowerPrefix("select", "select ", Sql.SelectText(s));
  }

  lemma FirstPart(a: string, b: string, c: string, d: string, e: string, f: string, g: string, h: string)
    ensures StartsWith(a + b + c + d + e + f + g + h, a)
  {
  }

  lemma SolidSelect(select: string, list: string, from: string, table: string, as_: string, alias: string,
                    sep: string, joins: string, byText: string, group: string)
    requires select != "" && !IsSpace(select[0]) && ';' !in select && Solid(list) && ';' !in from && Solid(table)
    requires ';' !in as_ && Solid(alias) && ';' !in sep && (joins == "" || Solid(joins))
    requires ';' !in byText && (group == "" || Solid(group))
    ensures Solid(select + list + from + table + as_ + alias
                  + (if joins == "" then "" else sep + joins) + (if group == "" then "" else byText + group))
  {
    var a := select + list;
    assert Solid(a);
    SolidAround(a, from, table);
    SolidAround(a + from + table, as_, alias);
    var b := a + from + table + as_ + alias;
    SolidExtend(b, sep, joins);
    var c := if joins == "" then b else b + (sep + joins);
    SolidExtend(c, byText, group);
    assert b + (if joins == "" then "" else sep + joins) == c;
    assert c + (if group == "" then "" else byText + group) == if group == "" then c else c + (byText + group);
  }

  lemma SelectKeyword()
    ensures StartsWith("select ", "select") && IsLower("select")
  {
  }

  lemma LowerPrefix(word: string, prefix: string, text: string)
    requires StartsWith(text, prefix) && StartsWith(prefix, word) && IsLower(word)
    ensures StartsWith(Lower(text), word)
  {
    var l := Lower(text);
    forall i | 0 <= i < |word| ensures l[i] == word[i] {
      assert text[i] == prefix[i] && prefix[i] == word[i];
    }
    assert l[..|word|] == word;
  }

  // ----- the theorem -----

  lemma LoweredHarmless(words: seq<string>, lowered: seq<string>)
    requires lowered == Mapped(Lower, words)
    ensures (forall t | t in lowered :: t !in UNSAFE_SQL_KEYWORDS) <==> AllHarmless(words)
  {
    MappedAt(Lower, words);
    if AllHarmless(words) {
      forall t | t in lowered ensures t !in UNSAFE_SQL_KEYWORDS {
        var i :| 0 <= i < |lowered| && lowered[i] == t;
        assert words[i] in words;
      }
    }
    if forall t | t in lowered :: t !in UNSAFE_SQL_KEYWORDS {
      forall w | w in words ensures Harmless(w) {
        var i :| 0 <= i < |words| && words[i] == w;
        assert lowered[i] in lowered;
      }
    }
  }

  lemma CheckedWords(text: string)
    requires Solid(text) && StartsWith(Lower(text), "select")
    ensures ReadOnly(text).Ok? <==> AllHarmless(Tokens(text))
    ensures ReadOnly(text).Ok? ==> ReadOnly(text).value == text
  {
    StripFixed(text);
    TokensLower(text);
    FirstUnsafeFinds(Tokens(Lower(text)));
    LoweredHarmless(Tokens(text), Tokens(Lower(text)));
  }

  lemma CompiledItemShaped(aliases: map<string, string>, g: GroupRef, n: nat, i: Sql.SelectItem)
    requires IsIdent(g.entity) && IsIdent(g.column) && g.entity in aliases && aliases[g.entity] == Alias(n)
    requires i == Sql.SelectItem(ColumnOf(aliases, g), g.entity + "__" + g.column)
    ensures ItemShaped(i) && ColumnShaped(i.column)
  {
  }

  lemma ClauseShaped(clause: Sql.JoinClause, j: Join, entityIds: set<string>, base: string, e: string, n: nat)
    requires StarJoin.ClauseFor(clause, j, base, e, n) && JoinNormal(j, entityIds) && IsIdent(e)
    ensures JoinShaped(clause)
  {
    assert clause.left.alias == Alias(if j.leftEntity == base then 0 else n);
    assert clause.right.alias == Alias(if j.leftEntity == base then n else 0);
  }

  lemma RefAlias(base: string, refs: seq<GroupRef>, g: GroupRef) returns (n: nat)
    requires g in refs
    ensures g.entity in Aliases(Involved(base, refs)) && Aliases(Involved(base, refs))[g.entity] == Alias(n)
  {
    var involved := Involved(base, refs);
    InvolvedFacts(base, refs);
    AliasesFacts(involved);
    n :| 0 <= n < |involved| && involved[n] == g.entity;
  }

  /** A reference of an accepted group_by list: both halves are identifiers. */
  ghost predicate RefsNamed(refs: seq<GroupRef>) {
    forall g | g in refs :: IsIdent(g.entity) && IsIdent(g.column)
  }

  lemma CompiledItemsShaped(m: Manifest, metric: Metric, refs: seq<GroupRef>, select: Sql.Select, k: nat)
    requires NormalForm(m) && metric in m.metrics && RefsNamed(refs) && Compile(m, metric, refs) == Ok(select)
    requires k < |refs|
    ensures |select.items| == |refs| == |select.groupBy|
    ensures ItemShaped(select.items[k]) && ColumnShaped(select.groupBy[k])
  {
    StarJoin.CompiledParts(m, metric, refs, select);
    var n := RefAlias(metric.entityId, refs, refs[k]);
    CompiledItemShaped(Aliases(Involved(metric.entityId, refs)), refs[k], n, select.items[k]);
  }

  lemma CompiledJoinsShaped(m: Manifest, metric: Metric, refs: seq<GroupRef>, select: Sql.Select, k: nat)
    requires NormalForm(m) && metric in m.metrics && RefsNamed(refs) && Compile(m, metric, refs) == Ok(select)
    requires k < |select.joins|
    ensures JoinShaped(select.joins[k])
  {
    var base, others := metric.entityId, Involved(metric.entityId, refs)[1..];
    StarJoin.CompiledParts(m, metric, refs, select);
    StarJoin.ClauseAt(m.joins, base, others, select.joins, k);
    OtherIsIdent(base, refs, others[k]);
    FoundJoinLinks(m.joins, base, others[k]);
    ClauseShaped(select.joins[k], FindJoinBetween(m.joins, base, others[k]).value, EntityIds(m.entities),
                 base, others[k], k + 1);
  }

  lemma CompiledShaped(m: Manifest, metric: Metric, refs: seq<GroupRef>, select: Sql.Select)
    requires NormalForm(m) && metric in m.metrics && RefsNamed(refs) && Compile(m, metric, refs) == Ok(select)
    ensures Shaped(select)
  {
    StarJoin.CompiledParts(m, metric, refs, select);
    forall k | 0 <= k < |refs| ensures ItemShaped(select.items[k]) && ColumnShaped(select.groupBy[k]) {
      CompiledItemsShaped(m, metric, refs, select, k);
    }
    forall k | 0 <= k < |select.joins| ensures JoinShaped(select.joins[k]) {
      CompiledJoinsShaped(m, metric, refs, select, k);
    }
    assert select.metric.arg.value.alias == Alias(0);
  }

  lemma OtherIsIdent(base: string, refs: seq<GroupRef>, e: string)
    requires RefsNamed(refs) && e in Involved(base, refs)[1..]
    ensures IsIdent(e)
  {
    StarJoin.OthersDistinct(base, refs, Involved(base, refs));
    InvolvedFacts(base, refs);
    assert e in Involved(base, refs);
    var g :| g in refs && g.entity == e;
  }

  /** An entity joined to the metric's: its id and the keys of the join between them. */
  predicate OtherHarmless(joins: seq<Join>, base: string, e: string) {
    var j := FindJoinBetween(joins, base, e);
    Harmless(e) && (j.Some? ==> Harmless(j.value.leftKey) && Harmless(j.value.rightKey))
  }

  predicate RefHarmless(g: GroupRef) {
    Harmless(g.column)
  }

  /** The names a query takes from the request and the manifest: the involved entities, the keys of the joins
      between them, the grouped columns and the metric's field. */
  ghost predicate RequestHarmless(m: Manifest, metric: Metric, refs: seq<GroupRef>) {
    && Harmless(metric.entityId) && Harmless(metric.field)
    && (forall e | e in Involved(metric.entityId, refs)[1..] :: OtherHarmless(m.joins, metric.entityId, e))
    && (forall g | g in refs :: RefHarmless(g))
  }

  lemma SamePositions<A, B>(a: seq<A>, b: seq<B>, p: A -> bool, q: B -> bool)
    requires |a| == |b| && forall k | 0 <= k < |a| :: p(a[k]) <==> q(b[k])
    ensures (forall x | x in a :: p(x)) <==> forall y | y in b :: q(y)
  {
    if forall x | x in a :: p(x) {
      forall y | y in b ensures q(y) { var k :| 0 <= k < |b| && b[k] == y; assert a[k] in a; }
    }
    if forall y | y in b :: q(y) {
      forall x | x in a ensures p(x) { var k :| 0 <= k < |a| && a[k] == x; assert b[k] in b; }
    }
  }

  lemma ItemsAndRefsHarmless(aliases: map<string, string>, refs: seq<GroupRef>)
    requires forall g | g in refs :: g.entity in aliases
    ensures (forall i | i in Items(aliases, refs) :: Harmless(i.column.name)) <==> forall g | g in refs :: RefHarmless(g)
  {
    var p := (i: Sql.SelectItem) => Harmless(i.column.name);
    SamePositions(Items(aliases, refs), refs, p, RefHarmless);
    assert (forall i | i in Items(aliases, refs) :: Harmless(i.column.name))
           <==> forall i | i in Items(aliases, refs) :: p(i);
  }

  lemma ColumnsAndRefsHarmless(aliases: map<string, string>, refs: seq<GroupRef>)
    requires forall g | g in refs :: g.entity in aliases
    ensures (forall c | c in Columns(aliases, refs) :: Harmless(c.name)) <==> forall g | g in refs :: RefHarmless(g)
  {
    var p := (c: Sql.Column) => Harmless(c.name);
    SamePositions(Columns(aliases, refs), refs, p, RefHarmless);
    assert (forall c | c in Columns(aliases, refs) :: Harmless(c.name)) <==> forall c | c in Columns(aliases, refs) :: p(c);
  }

  lemma ClausesHarmless(joins: seq<Join>, base: string, others: seq<string>, clauses: seq<Sql.JoinClause>)
    requires StarJoin.ClausesFor(joins, base, others, clauses)
    ensures (forall j | j in clauses :: ClauseHarmless(j)) <==> forall e | e in others :: OtherHarmless(joins, base, e)
  {
    var q := (e: string) => OtherHarmless(joins, base, e);
    forall k | 0 <= k < |others| ensures ClauseHarmless(clauses[k]) <==> q(others[k]) {
      StarJoin.ClauseAt(joins, base, others, clauses, k);
    }
    SamePositions(clauses, others, ClauseHarmless, q);
    assert (forall e | e in others :: OtherHarmless(joins, base, e)) <==> forall e | e in others :: q(e);
  }

  lemma CompiledHarmless(m: Manifest, metric: Metric, refs: seq<GroupRef>, select: Sql.Select)
    requires NormalForm(m) && metric in m.metrics && Compile(m, metric, refs) == Ok(select)
    ensures select.metric.arg.Some? && (NamesHarmless(select) <==> RequestHarmless(m, metric, refs))
  {
    StarJoin.CompiledParts(m, metric, refs, select);
    PartsHarmless(m, metric, refs, select, Involved(metric.entityId, refs));
  }

  lemma PartsHarmless(m: Manifest, metric: Metric, refs: seq<GroupRef>, select: Sql.Select, involved: seq<string>)
    requires involved == Involved(metric.entityId, refs) && (forall g | g in refs :: g.entity in Aliases(involved))
    requires select.table == metric.entityId && select.items == Items(Aliases(involved), refs)
    requires select.groupBy == Columns(Aliases(involved), refs)
    requires select.metric == Sql.Aggregate(metric.aggregation, Some(Sql.Column(Alias(0), metric.field)))
    requires StarJoin.ClausesFor(m.joins, metric.entityId, involved[1..], select.joins)
    ensures NamesHarmless(select) <==> RequestHarmless(m, metric, refs)
  {
    ItemsAndRefsHarmless(Aliases(involved), refs);
    ColumnsAndRefsHarmless(Aliases(involved), refs);
    ClausesHarmless(m.joins, metric.entityId, involved[1..], select.joins);
  }

  /** Printer against lexer: the text of every compiled query passes the read-only check, unchanged, exactly when
      no name it takes from the request or the manifest lowercases to a denied keyword. */
  lemma CompiledTextPasses(m: Manifest, metric: Metric, refs: seq<GroupRef>, select: Sql.Select)
    requires NormalForm(m) && metric in m.metrics && RefsNamed(refs) && Compile(m, metric, refs) == Ok(select)
    ensures ReadOnly(Sql.SelectText(select)).Ok? <==> RequestHarmless(m, metric, refs)
    ensures RequestHarmless(m, metric, refs) ==> ReadOnly(Sql.SelectText(select)) == Ok(Sql.SelectText(select))
  {
    CompiledShaped(m, metric, refs, select);
    CompiledHarmless(m, metric, refs, select);
    ShapedTextPasses(select);
  }

  lemma ShapedTextPasses(s: Sql.Select)
    requires Shaped(s)
    ensures ReadOnly(Sql.SelectText(s)).Ok? <==> NamesHarmless(s)
    ensures NamesHarmless(s) ==> ReadOnly(Sql.SelectText(s)) == Ok(Sql.SelectText(s))
  {
    ShapedNamed(s);
    QueryLexes(s);
    QuerySolid(s);
    QueryHarmless(s);
    WordsDecide(Sql.SelectText(s), QueryWords(s), NamesHarmless(s));
  }

  lemma WordsDecide(text: string, words: seq<string>, harmless: bool)
    requires Solid(text) && StartsWith(Lower(text), "select") && Tokens(text) == words
    requires AllHarmless(words) <==> harmless
    ensures ReadOnly(text).Ok? <==> harmless
    ensures ReadOnly(text).Ok? ==> ReadOnly(text).value == text
  {
    CheckedWords(text);
  }
}
