/** Python's view of text: code-point order, sorting, stripping, identifiers and decimal numerals. Strings are sequences
    of code points; case mapping is on ASCII letters. Sorting is specified by its result: strictly sorted and with the
    same elements, for sets, or sorted by a key and a permutation, for lists of records. */
module Text {
  import opened Sequences

  datatype Option<+T> = None | Some(value: T) {
    function GetOr(default: T): T {
      match this
      case Some(v) => v
      case None => default
    }
  }

  datatype Result<+T> = Ok(value: T) | Err(error: string)

  // ----- code-point order on strings (Python's `<` on str) -----

  predicate Less(a: string, b: string)
  {
    b != [] && (a == [] || a[0] < b[0] || (a[0] == b[0] && Less(a[1..], b[1..])))
  }

  predicate AtMost(a: string, b: string) {
    a == b || Less(a, b)
  }

  lemma {:induction false} LessIrreflexive(a: string)
    ensures !Less(a, a)
  {
    if a != [] { LessIrreflexive(a[1..]); }
  }

  lemma {:induction false} LessTransitive(a: string, b: string, c: string)
    requires Less(a, b) && Less(b, c)
    ensures Less(a, c)
  {
    if a != [] && a[0] == b[0] && b[0] == c[0] { LessTransitive(a[1..], b[1..], c[1..]); }
  }

  lemma {:induction false} LessTotal(a: string, b: string)
    ensures a == b || Less(a, b) || Less(b, a)
  {
    if a != [] && b != [] && a[0] == b[0] {
      LessTotal(a[1..], b[1..]);
      assert a == [a[0]] + a[1..] && b == [b[0]] + b[1..];
    }
  }

  lemma LessAsymmetric(a: string, b: string)
    requires Less(a, b)
    ensures !Less(b, a) && a != b
  {
    LessIrreflexive(a);
    if Less(b, a) { LessTransitive(a, b, a); }
  }

  // ----- sorting -----

  /** Strictly increasing under a key: sorted, and keys pairwise distinct. */
  ghost predicate StrictlySorted<T>(key: T -> string, s: seq<T>)
  {
    forall i, j | 0 <= i < j < |s| :: Less(key(s[i]), key(s[j]))
  }

  ghost predicate DistinctKeys<T>(key: T -> string, s: seq<T>)
  {
    forall i, j | 0 <= i < j < |s| :: key(s[i]) != key(s[j])
  }

  /** Python's sorted(s, key=key): insertion keeps the order of equal keys. */
  function SortBy<T>(key: T -> string, s: seq<T>): (r: seq<T>)
    ensures |r| == |s|
  {
    if s == [] then [] else Insert(key, SortBy(key, s[..|s| - 1]), s[|s| - 1])
  }

  /** Puts x after every element whose key is at most its own. */
  function Insert<T>(key: T -> string, s: seq<T>, x: T): (r: seq<T>)
    ensures |r| == |s| + 1
  {
    if s == [] then [x]
    else if Less(key(x), key(s[|s| - 1])) then Insert(key, s[..|s| - 1], x) + [s[|s| - 1]]
    else s + [x]
  }

  lemma {:induction false} InsertContents<T>(key: T -> string, s: seq<T>, x: T)
    ensures multiset(Insert(key, s, x)) == multiset(s) + multiset{x}
  {
    if s != [] {
      InsertContents(key, s[..|s| - 1], x);
      assert s == s[..|s| - 1] + [s[|s| - 1]];
    }
  }

  lemma {:induction false} InsertSorted<T>(key: T -> string, s: seq<T>, x: T)
    requires StrictlySorted(key, s)
    requires forall i | 0 <= i < |s| :: key(s[i]) != key(x)
    ensures StrictlySorted(key, Insert(key, s, x))
    ensures forall k | AllBelow(key, s, k) && Less(key(x), k) :: AllBelow(key, Insert(key, s, x), k)
  {
    if s != [] {
      var front, last := s[..|s| - 1], s[|s| - 1];
      if Less(key(x), key(last)) {
        InsertSorted(key, front, x);
      } else {
        LessTotal(key(x), key(last));
        forall i | 0 <= i < |s| ensures Less(key(s[i]), key(x)) {
          if i < |s| - 1 { LessTransitive(key(s[i]), key(last), key(x)); }
        }
      }
    }
  }

  ghost predicate AllBelow<T>(key: T -> string, s: seq<T>, k: string) {
    forall i | 0 <= i < |s| :: Less(key(s[i]), k)
  }

  lemma {:induction false} SortContents<T>(key: T -> string, s: seq<T>)
    ensures multiset(SortBy(key, s)) == multiset(s)
  {
    if s != [] {
      SortContents(key, s[..|s| - 1]);
      InsertContents(key, SortBy(key, s[..|s| - 1]), s[|s| - 1]);
      assert s == s[..|s| - 1] + [s[|s| - 1]];
    }
  }

  lemma {:induction false} SortSorted<T>(key: T -> string, s: seq<T>)
    requires DistinctKeys(key, s)
    ensures StrictlySorted(key, SortBy(key, s))
  {
    if s != [] {
      var front, last := s[..|s| - 1], s[|s| - 1];
      var r := SortBy(key, front);
      SortSorted(key, front);
      SortContents(key, front);
      forall i | 0 <= i < |r| ensures key(r[i]) != key(last) {
        assert r[i] in multiset(front);
        var k :| 0 <= k < |front| && front[k] == r[i];
        assert s[k] == r[i];
      }
      InsertSorted(key, r, last);
    }
  }

  /** Two strictly sorted sequences with the same elements are the same sequence. */
  lemma {:induction false} SortedUnique<T>(key: T -> string, s: seq<T>, t: seq<T>)
    requires StrictlySorted(key, s) && StrictlySorted(key, t)
    requires multiset(s) == multiset(t)
    ensures s == t
    decreases |s|
  {
    SameLength(s, t);
    if s != [] {
      LastElementAgrees(key, s, t);
      FrontMultiset(s);
      FrontMultiset(t);
      StrictlySortedFront(key, s);
      StrictlySortedFront(key, t);
      SortedUnique(key, s[..|s| - 1], t[..|t| - 1]);
    }
  }

  lemma StrictlySortedFront<T>(key: T -> string, s: seq<T>)
    requires s != [] && StrictlySorted(key, s)
    ensures StrictlySorted(key, s[..|s| - 1])
  {
  }

  lemma LastElementAgrees<T>(key: T -> string, s: seq<T>, t: seq<T>)
    requires StrictlySorted(key, s) && StrictlySorted(key, t)
    requires multiset(s) == multiset(t) && s != [] && t != []
    ensures s[|s| - 1] == t[|t| - 1]
  {
    var a, b := s[|s| - 1], t[|t| - 1];
    LastIsGreatest(key, t, s);
    LastIsGreatest(key, s, t);
    if Less(key(a), key(b)) { LessAsymmetric(key(a), key(b)); }
    assert a in multiset(t);
    var k :| 0 <= k < |t| && t[k] == a;
    if k < |t| - 1 { LessIrreflexive(key(b)); }
  }

  lemma LastIsGreatest<T>(key: T -> string, s: seq<T>, t: seq<T>)
    requires StrictlySorted(key, s) && multiset(s) == multiset(t) && s != [] && t != []
    ensures AtMost(key(t[|t| - 1]), key(s[|s| - 1]))
  {
    assert t[|t| - 1] in multiset(s);
    var k :| 0 <= k < |s| && s[k] == t[|t| - 1];
    if k < |s| - 1 { assert Less(key(s[k]), key(s[|s| - 1])); }
  }

  /** Sorting forgets the order of its input when keys are distinct. */
  lemma SortPermutation<T>(key: T -> string, s: seq<T>, t: seq<T>)
    requires multiset(s) == multiset(t) && DistinctKeys(key, s) && DistinctKeys(key, t)
    ensures SortBy(key, s) == SortBy(key, t)
  {
    SortContents(key, s);
    SortContents(key, t);
    SortSorted(key, s);
    SortSorted(key, t);
    SortedUnique(key, SortBy(key, s), SortBy(key, t));
  }

  /** Sorting leaves a sorted sequence alone. */
  lemma SortFixed<T>(key: T -> string, s: seq<T>)
    requires StrictlySorted(key, s)
    ensures SortBy(key, s) == s
  {
    forall i, j | 0 <= i < j < |s| ensures key(s[i]) != key(s[j]) { LessAsymmetric(key(s[i]), key(s[j])); }
    SortContents(key, s);
    SortSorted(key, s);
    SortedUnique(key, SortBy(key, s), s);
  }

  function Itself(s: string): string { s }

  /** Python's sorted(set(s)) on strings. */
  function SortedSet(s: seq<string>): seq<string> {
    SortBy(Itself, Dedupe(s))
  }

  lemma SortedSetFacts(s: seq<string>)
    ensures StrictlySorted(Itself, SortedSet(s))
    ensures forall x :: x in SortedSet(s) <==> x in s
  {
    DedupeContents(s);
    SortSorted(Itself, Dedupe(s));
    SortContents(Itself, Dedupe(s));
    forall x ensures x in SortedSet(s) <==> x in s {
      assert x in multiset(SortedSet(s)) <==> x in multiset(Dedupe(s));
    }
  }

  /** sorted(set(..)) depends on the set of strings only. */
  lemma SortedSetExtensional(s: seq<string>, t: seq<string>)
    requires forall x :: x in s <==> x in t
    ensures SortedSet(s) == SortedSet(t)
  {
    DedupeContents(s);
    DedupeContents(t);
    DistinctMultisets(Dedupe(s), Dedupe(t));
    SortPermutation(Itself, Dedupe(s), Dedupe(t));
  }

  lemma SortedSetFixed(s: seq<string>)
    requires StrictlySorted(Itself, s)
    ensures SortedSet(s) == s
  {
    forall i, j | 0 <= i < j < |s| ensures s[i] != s[j] { LessAsymmetric(Itself(s[i]), Itself(s[j])); }
    DedupeFixed(s);
    SortFixed(Itself, s);
  }

  ghost predicate IsLeast(m: string, s: set<string>) {
    m in s && forall y | y in s :: AtMost(m, y)
  }

  lemma {:induction false} FindLeast(s: set<string>) returns (m: string)
    requires s != {}
    ensures IsLeast(m, s)
  {
    var x :| x in s;
    m := x;
    if s != {x} {
      assert s - {x} != {};
      var n := FindLeast(s - {x});
      LessTotal(n, x);
      if Less(x, n) {
        forall y | y in s - {x} ensures Less(x, y) {
          if y != n { LessTransitive(x, n, y); }
        }
      } else {
        m := n;
      }
    }
  }

  lemma LeastExists(s: set<string>)
    requires s != {}
    ensures exists m :: m in s && forall y | y in s :: AtMost(m, y)
  {
    var m := FindLeast(s);
    assert m in s;
  }

  lemma LeastUnique(s: set<string>)
    ensures forall m, n | m in s && n in s && (forall y | y in s :: AtMost(m, y))
                          && (forall y | y in s :: AtMost(n, y)) :: m == n
  {
    forall m, n | m in s && n in s && (forall y | y in s :: AtMost(m, y)) && (forall y | y in s :: AtMost(n, y))
      ensures m == n
    {
      if m != n { LessAsymmetric(m, n); }
    }
  }

  /** min(s) */
  function LeastOf(s: set<string>): (m: string)
    requires s != {}
    ensures m in s
  {
    LeastExists(s);
    LeastUnique(s);
    var m :| m in s && forall y | y in s :: AtMost(m, y);
    m
  }

  lemma LeastOfIsLeast(s: set<string>, m: string)
    requires s != {}
    ensures AtMost(LeastOf(s), m) || m !in s
    ensures IsLeast(m, s) ==> m == LeastOf(s)
  {
    LeastUnique(s);
  }

  /** Python's sorted(..) on a set of strings. */
  function SortedOf(s: set<string>): seq<string> {
    if s == {} then [] else [LeastOf(s)] + SortedOf(s - {LeastOf(s)})
  }

  lemma {:induction false} SortedOfContents(s: set<string>)
    ensures forall x :: x in SortedOf(s) <==> x in s
  {
    if s != {} { SortedOfContents(s - {LeastOf(s)}); }
  }

  lemma {:induction false} SortedOfFacts(s: set<string>)
    ensures forall x :: x in SortedOf(s) <==> x in s
    ensures StrictlySorted(Itself, SortedOf(s))
  {
    SortedOfContents(s);
    if s != {} {
      var m := LeastOf(s);
      var r := SortedOf(s - {m});
      SortedOfFacts(s - {m});
      forall x | x in r ensures AtMost(m, x) && x != m { LeastOfIsLeast(s, x); }
      SortedCons(m, r);
    }
  }

  lemma SortedCons(m: string, r: seq<string>)
    requires StrictlySorted(Itself, r)
    requires forall x | x in r :: AtMost(m, x) && x != m
    ensures StrictlySorted(Itself, [m] + r)
  {
    var all := [m] + r;
    forall i, j | 0 <= i < j < |all| ensures Less(Itself(all[i]), Itself(all[j])) {
      assert all[j] == r[j - 1] && r[j - 1] in r;
      if i > 0 { assert Less(Itself(r[i - 1]), Itself(r[j - 1])); }
    }
  }

  lemma DistinctKeysPermutation<T>(key: T -> string, s: seq<T>, t: seq<T>)
    requires DistinctKeys(key, s) && multiset(s) == multiset(t)
    ensures DistinctKeys(key, t)
  {
    forall i, j | 0 <= i < j < |t| ensures key(t[i]) != key(t[j]) {
      RemoveAt(t, j);
      assert (t[..j] + t[j + 1..])[i] == t[i];
      assert t[i] in multiset(t[..j] + t[j + 1..]);
      TwicePositions(s, t[i], t[j], multiset(t[..j] + t[j + 1..]));
      var a, b :| 0 <= a < |s| && 0 <= b < |s| && a != b && s[a] == t[i] && s[b] == t[j];
      if a < b { assert key(s[a]) != key(s[b]); } else { assert key(s[b]) != key(s[a]); }
    }
  }

  // ----- whitespace -----

  /** Characters for which Python's str.isspace() holds. */
  predicate IsSpace(c: char) {
    var n := c as int;
    9 <= n <= 13 || 28 <= n <= 32 || n == 0x85 || n == 0xA0 || n == 0x1680 || 0x2000 <= n <= 0x200A
    || n == 0x2028 || n == 0x2029 || n == 0x202F || n == 0x205F || n == 0x3000
  }

  function Strip(s: string): (r: string)
    decreases |s|
    ensures IsStripped(r)
  {
    if s == [] then []
    else if IsSpace(s[0]) then Strip(s[1..])
    else if IsSpace(s[|s| - 1]) then Strip(s[..|s| - 1])
    else s
  }

  predicate IsStripped(s: string) {
    s == [] || (!IsSpace(s[0]) && !IsSpace(s[|s| - 1]))
  }

  lemma StripFixed(s: string)
    requires IsStripped(s)
    ensures Strip(s) == s
  {
  }

  // ----- identifiers -----

  predicate IsIdentStart(c: char) {
    'A' <= c <= 'Z' || 'a' <= c <= 'z' || c == '_'
  }

  predicate IsIdentChar(c: char) {
    IsIdentStart(c) || '0' <= c <= '9'
  }

  predicate AllIdentChars(s: string) {
    forall i | 0 <= i < |s| :: IsIdentChar(s[i])
  }

  /** A whole-string match of [A-Za-z_][A-Za-z0-9_]*. */
  predicate IsIdent(s: string) {
    s != [] && IsIdentStart(s[0]) && AllIdentChars(s)
  }

  /** re.match with a pattern ending in `$`: a final newline is let through as well. */
  predicate MatchesIdPattern(s: string) {
    IsIdent(s) || (s != [] && s[|s| - 1] == '\n' && IsIdent(s[..|s| - 1]))
  }

  lemma StrippedIdPattern(s: string)
    requires IsStripped(s)
    ensures MatchesIdPattern(s) <==> IsIdent(s)
  {
    if MatchesIdPattern(s) && !IsIdent(s) { assert IsSpace(s[|s| - 1]); }
  }

  lemma IdentStripped(s: string)
    requires IsIdent(s)
    ensures IsStripped(s) && Strip(s) == s
  {
    assert IsIdentChar(s[0]) && IsIdentChar(s[|s| - 1]);
    StripFixed(s);
  }

  // ----- letters -----

  function LowerChar(c: char): char {
    if 'A' <= c <= 'Z' then (c as int + 32) as char else c
  }

  /** str.lower() on ASCII letters. */
  function Lower(s: string): (r: string)
    ensures |r| == |s|
    ensures forall i | 0 <= i < |s| :: r[i] == LowerChar(s[i])
  {
    if s == [] then [] else [LowerChar(s[0])] + Lower(s[1..])
  }

  predicate IsLower(s: string) {
    forall i | 0 <= i < |s| :: !('A' <= s[i] <= 'Z')
  }

  lemma LowerFixed(s: string)
    requires IsLower(s)
    ensures Lower(s) == s
  {
  }

  // ----- decimal numerals -----

  function DigitChar(d: nat): char
    requires d < 10
  {
    ('0' as int + d) as char
  }

  /** str(n) for a natural number. */
  function Decimal(n: nat): (r: string)
    ensures r != []
    ensures forall i | 0 <= i < |r| :: '0' <= r[i] <= '9'
  {
    if n < 10 then [DigitChar(n)] else Decimal(n / 10) + [DigitChar(n % 10)]
  }

  /** int(s) for a string of ASCII digits. */
  function DecimalValue(s: string): nat
    requires forall i | 0 <= i < |s| :: '0' <= s[i] <= '9'
  {
    if s == [] then 0 else DecimalValue(s[..|s| - 1]) * 10 + (s[|s| - 1] as int - '0' as int)
  }

  lemma {:induction false} DecimalRoundTrip(n: nat)
    ensures DecimalValue(Decimal(n)) == n
  {
    if n >= 10 {
      DecimalRoundTrip(n / 10);
      assert Decimal(n)[..|Decimal(n)| - 1] == Decimal(n / 10);
    }
  }

  // ----- joining and splitting -----

  /** sep.join(parts) */
  function JoinWith(sep: string, parts: seq<string>): string {
    if parts == [] then ""
    else if |parts| == 1 then parts[0]
    else JoinWith(sep, parts[..|parts| - 1]) + sep + parts[|parts| - 1]
  }

  /** s.split(c, 1) for a string that contains c. */
  function SplitFirst(s: string, c: char): (r: (string, string))
    requires c in s
    ensures s == r.0 + [c] + r.1 && c !in r.0
  {
    if s[0] == c then ("", s[1..])
    else
      var (a, b) := SplitFirst(s[1..], c);
      ([s[0]] + a, b)
  }

  lemma {:induction false} SplitFirstUnique(a: string, c: char, b: string)
    requires c !in a
    ensures SplitFirst(a + [c] + b, c) == (a, b)
  {
    var s := a + [c] + b;
    assert s[|a|] == c;
    if a == [] {
      assert s[1..] == b;
    } else {
      assert s[0] == a[0] && a[0] in a;
      assert s[1..] == a[1..] + [c] + b;
      SplitFirstUnique(a[1..], c, b);
      assert a == [a[0]] + a[1..];
    }
  }
}
