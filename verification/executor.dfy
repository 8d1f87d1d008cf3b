/** backend/gateway/executor.py: the read-only check on query text, and the row filter. */
module Executor {
  import opened Sequences
  import opened Text

  const UNSAFE_SQL_KEYWORDS := {
    "insert", "update", "delete", "drop", "alter", "attach", "detach", "copy", "export", "pragma", "vacuum",
    "create", "replace", "truncate", "read_csv", "read_csv_auto", "read_parquet", "read_json", "read_json_auto",
    "glob", "install", "load", "httpfs"
  }

  // ----- tokens -----

  /** How many identifier characters s starts with. */
  function WordLength(s: string): (n: nat)
    ensures n <= |s|
  {
    if s == [] || !IsIdentChar(s[0]) then 0 else 1 + WordLength(s[1..])
  }

  /** TOKEN_RE.findall(s): leftmost, longest, non-overlapping matches of [A-Za-z_][A-Za-z0-9_]* */
  function Tokens(s: string): seq<string>
    decreases |s|
  {
    if s == [] then []
    else if IsIdentStart(s[0]) then [s[..WordLength(s)]] + Tokens(s[WordLength(s)..])
    else Tokens(s[1..])
  }

  predicate StartsWith(s: string, prefix: string) {
    |prefix| <= |s| && s[..|prefix|] == prefix
  }

  function FirstUnsafe(tokens: seq<string>): Option<string> {
    if tokens == [] then None
    else if tokens[0] in UNSAFE_SQL_KEYWORDS then Some(tokens[0])
    else FirstUnsafe(tokens[1..])
  }

  /** What _validate_read_only_query returns or raises. */
  function ReadOnly(query: string): Result<string> {
    var normalized := if Strip(query) == "" then "select 1 as one" else Strip(query);
    if ';' in normalized then Err("multiple_sql_statements_denied")
    else if !StartsWith(Lower(normalized), "select") && !StartsWith(Lower(normalized), "with ") then
      Err("only_select_or_cte_queries_allowed")
    else match FirstUnsafe(Tokens(Lower(normalized)))
      case Some(token) => Err("unsafe_sql_keyword_denied:" + token)
      case None => Ok(normalized)
  }

  method ValidateReadOnlyQuery(query: string) returns (r: Result<string>)
    ensures r == ReadOnly(query)
  {
    var normalized := Strip(query);
    if normalized == "" { normalized := "select 1 as one"; }
    var lowered := Lower(normalized);
    if ';' in normalized { return Err("multiple_sql_statements_denied"); }
    if !StartsWith(lowered, "select") && !StartsWith(lowered, "with ") {
      return Err("only_select_or_cte_queries_allowed");
    }
    var denied := ScanTokens(Tokens(lowered));
    r := if denied.Some? then Err("unsafe_sql_keyword_denied:" + denied.value) else Ok(normalized);
  }

  /** The loop over the tokens. */
  method ScanTokens(tokens: seq<string>) returns (denied: Option<string>)
    ensures denied == FirstUnsafe(tokens)
  {
    for i := 0 to |tokens|
      invariant FirstUnsafe(tokens) == FirstUnsafe(tokens[i..])
    {
      if tokens[i] in UNSAFE_SQL_KEYWORDS {
        return Some(tokens[i]);
      }
      assert tokens[i..][1..] == tokens[i + 1..];
    }
    return None;
  }

  lemma {:induction false} FirstUnsafeFinds(tokens: seq<string>)
    ensures FirstUnsafe(tokens).None? <==> forall t | t in tokens :: t !in UNSAFE_SQL_KEYWORDS
    ensures FirstUnsafe(tokens).Some? ==>
              FirstUnsafe(tokens).value in tokens && FirstUnsafe(tokens).value in UNSAFE_SQL_KEYWORDS
  {
    if tokens != [] && tokens[0] !in UNSAFE_SQL_KEYWORDS {
      FirstUnsafeFinds(tokens[1..]);
      assert forall t :: t in tokens <==> t == tokens[0] || t in tokens[1..];
    }
  }

  /** Whatever is let through is a single statement whose words are all harmless. */
  lemma AcceptedIsHarmless(query: string)
    requires ReadOnly(query).Ok?
    ensures ';' !in ReadOnly(query).value
    ensures forall t | t in Tokens(Lower(ReadOnly(query).value)) :: t !in UNSAFE_SQL_KEYWORDS
  {
    FirstUnsafeFinds(Tokens(Lower(ReadOnly(query).value)));
  }

  // ----- lexing a concatenation -----

  lemma {:induction false} WordLengthConcat(a: string, b: string)
    requires b == [] || !IsIdentChar(b[0]) || WordLength(a) < |a|
    ensures WordLength(a + b) == WordLength(a)
  {
    if a != [] && IsIdentChar(a[0]) {
      assert (a + b)[1..] == a[1..] + b;
      WordLengthConcat(a[1..], b);
    }
  }

  /** Where words cannot run together the tokens of a concatenation are the tokens of its parts. */
  lemma {:induction false} TokensConcat(a: string, b: string)
    requires a == [] || b == [] || !IsIdentChar(a[|a| - 1]) || !IsIdentChar(b[0])
    ensures Tokens(a + b) == Tokens(a) + Tokens(b)
    decreases |a|
  {
    if a == [] {
      assert a + b == b;
    } else if b == [] {
      assert a + b == a;
    } else {
      var s := a + b;
      if IsIdentStart(a[0]) {
        var n := WordLength(a);
        if n == |a| { WholeWord(a); }
        WordLengthConcat(a, b);
        assert s[..n] == a[..n] && s[n..] == a[n..] + b;
        TokensConcat(a[n..], b);
      } else {
        assert s[1..] == a[1..] + b;
        TokensConcat(a[1..], b);
      }
    }
  }

  lemma {:induction false} WholeWord(a: string)
    ensures WordLength(a) == |a| <==> AllIdentChars(a)
  {
    if a != [] {
      WholeWord(a[1..]);
      assert a == [a[0]] + a[1..];
    }
  }

  lemma TokensOfIdent(w: string)
    requires IsIdent(w)
    ensures Tokens(w) == [w]
  {
    WholeWord(w);
    assert w[..|w|] == w && w[|w|..] == [];
  }

  lemma {:induction false} TokensOfNoise(s: string)
    requires forall i | 0 <= i < |s| :: !IsIdentChar(s[i])
    ensures Tokens(s) == []
  {
    if s != [] { TokensOfNoise(s[1..]); }
  }

  // ----- letters do not matter to the lexer -----

  lemma {:induction false} WordLengthLower(s: string)
    ensures WordLength(Lower(s)) == WordLength(s)
  {
    if s != [] { WordLengthLower(s[1..]); }
  }

  lemma {:induction false} LowerSlices(s: string, n: nat)
    requires n <= |s|
    ensures Lower(s)[..n] == Lower(s[..n]) && Lower(s)[n..] == Lower(s[n..])
  {
  }

  lemma {:induction false} TokensLower(s: string)
    ensures Tokens(Lower(s)) == Mapped(Lower, Tokens(s))
    decreases |s|
  {
    if s != [] {
      if IsIdentStart(s[0]) {
        var n := WordLength(s);
        WordLengthLower(s);
        LowerSlices(s, n);
        TokensLower(s[n..]);
        MappedConcat(Lower, [s[..n]], Tokens(s[n..]));
        assert [s[..n]][..0] == [];
      } else {
        LowerSlices(s, 1);
        TokensLower(s[1..]);
      }
    }
  }

  // ----- the row filter -----

  function NormalizedMaxRows(maxRows: int): (n: nat)
    ensures 1 <= n <= 5000
    ensures 1 <= maxRows <= 5000 ==> n == maxRows
  {
    if maxRows <= 0 then 1 else if maxRows < 5000 then maxRows else 5000
  }

  /** list.index */
  function IndexOf(names: seq<string>, name: string): (r: Option<nat>)
    ensures r.Some? ==> r.value < |names| && names[r.value] == name && name !in names[..r.value]
    ensures r.None? ==> name !in names
  {
    if names == [] then None
    else if names[0] == name then Some(0)
    else match IndexOf(names[1..], name)
      case None => None
      case Some(i) => Some(i + 1)
  }

  /** The rows whose cell in the given column reads as the wanted value, in order. */
  function Kept(rows: seq<seq<string>>, column: nat, value: string): seq<seq<string>> {
    if rows == [] then []
    else
      var front, row := Kept(rows[..|rows| - 1], column, value), rows[|rows| - 1];
      if column < |row| && row[column] == value then front + [row] else front
  }

  function Take<T>(s: seq<T>, n: nat): seq<T> {
    if n < |s| then s[..n] else s
  }

  /** _apply_optional_row_filter; cells are given by their str() text. */
  method ApplyOptionalRowFilter(columns: seq<string>, rows: seq<seq<string>>, rowFilter: Option<(string, string)>,
                                cappedRows: nat) returns (r: Result<seq<seq<string>>>)
    requires cappedRows >= 1
    ensures rowFilter.None? ==> r == Ok(Take(rows, cappedRows))
    ensures rowFilter.Some? && !MatchesIdPattern(Strip(rowFilter.value.0)) ==> r.Err?
    ensures rowFilter.Some? && MatchesIdPattern(Strip(rowFilter.value.0)) ==>
              r == match IndexOf(columns, Strip(rowFilter.value.0))
                   case None => Ok([])
                   case Some(i) => Ok(Take(Kept(rows, i, rowFilter.value.1), cappedRows))
  {
    if rowFilter.None? { return Ok(Take(rows, cappedRows)); }
    var (filterColumn, filterValue) := rowFilter.value;
    var column := Strip(filterColumn);
    if !MatchesIdPattern(column) { return Err("Invalid ABAC filter column: " + filterColumn); }
    var index := IndexOf(columns, column);
    if index.None? { return Ok([]); }
    var filtered: seq<seq<string>> := [];
    var i := 0;
    while i < |rows|
      invariant i <= |rows| && |filtered| < cappedRows
      invariant filtered == Kept(rows[..i], index.value, filterValue)
    {
      assert rows[..i + 1][..i] == rows[..i];
      if index.value < |rows[i]| && rows[i][index.value] == filterValue {
        filtered := filtered + [rows[i]];
      }
      i := i + 1;
      if |filtered| >= cappedRows {
        KeptPrefix(rows, i, index.value, filterValue);
        PrefixIsTake(filtered, Kept(rows, index.value, filterValue));
        return Ok(filtered);
      }
    }
    assert rows[..i] == rows;
    r := Ok(filtered);
  }

  lemma PrefixIsTake<T>(p: seq<T>, s: seq<T>)
    requires p <= s
    ensures Take(s, |p|) == p
  {
  }

  lemma {:induction false} KeptPrefix(rows: seq<seq<string>>, n: nat, column: nat, value: string)
    requires n <= |rows|
    ensures Kept(rows[..n], column, value) <= Kept(rows, column, value)
    decreases |rows|
  {
    if n == |rows| {
      assert rows[..n] == rows;
    } else {
      KeptPrefix(rows[..|rows| - 1], n, column, value);
      assert rows[..|rows| - 1][..n] == rows[..n];
    }
  }
}
