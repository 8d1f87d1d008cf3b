/** Facts about sequences that do not depend on what they hold: the front and the last element, first occurrences,
    elementwise functions, positions and insertions. Functions recurse on the front, because the loops of the modelled
    code append to what they have: a loop invariant on a prefix then unfolds by one step. */
module Sequences {

  lemma FrontMultiset<T>(s: seq<T>)
    requires s != []
    ensures s == s[..|s| - 1] + [s[|s| - 1]]
    ensures multiset(s[..|s| - 1]) == multiset(s) - multiset{s[|s| - 1]}
  {
    assert s == s[..|s| - 1] + [s[|s| - 1]];
  }

  lemma CountLast<T>(s: seq<T>, x: T)
    requires s != []
    ensures multiset(s)[x] == multiset(s[..|s| - 1])[x] + if s[|s| - 1] == x then 1 else 0
  {
    FrontMultiset(s);
  }

  lemma ConcatAssociative<T>(a: seq<T>, b: seq<T>, c: seq<T>)
    ensures a + b + c == a + (b + c)
  {
  }

  /** Dropping the last element of a concatenation drops it from the second part. */
  lemma ConcatFront<T>(a: seq<T>, b: seq<T>)
    requires b != []
    ensures (a + b)[..|a + b| - 1] == a + b[..|b| - 1]
    ensures a + b != [] && (a + b)[|a + b| - 1] == b[|b| - 1]
  {
  }

  lemma SameLength<T>(s: seq<T>, t: seq<T>)
    requires multiset(s) == multiset(t)
    ensures |s| == |t|
  {
    assert |s| == |multiset(s)| && |t| == |multiset(t)|;
  }

  /** Python's set(s) kept as the sequence of first occurrences. */
  function Dedupe<T(==)>(s: seq<T>): (r: seq<T>)
    ensures r == [] <==> s == []
  {
    if s == [] then []
    else
      var front, last := Dedupe(s[..|s| - 1]), s[|s| - 1];
      if last in front then front else front + [last]
  }

  lemma {:induction false} DedupeContents<T>(s: seq<T>)
    ensures forall x :: x in Dedupe(s) <==> x in s
    ensures forall i, j | 0 <= i < j < |Dedupe(s)| :: Dedupe(s)[i] != Dedupe(s)[j]
  {
    if s != [] {
      DedupeContents(s[..|s| - 1]);
      assert s == s[..|s| - 1] + [s[|s| - 1]];
      forall x ensures x in Dedupe(s) <==> x in s {
        assert x in s <==> x in s[..|s| - 1] || x == s[|s| - 1];
      }
    }
  }

  lemma {:induction false} DedupeFixed<T>(s: seq<T>)
    requires forall i, j | 0 <= i < j < |s| :: s[i] != s[j]
    ensures Dedupe(s) == s
  {
    if s != [] {
      DedupeFixed(s[..|s| - 1]);
      DedupeContents(s[..|s| - 1]);
      assert s == s[..|s| - 1] + [s[|s| - 1]];
    }
  }

  lemma DistinctMultisets<T>(s: seq<T>, t: seq<T>)
    requires forall i, j | 0 <= i < j < |s| :: s[i] != s[j]
    requires forall i, j | 0 <= i < j < |t| :: t[i] != t[j]
    requires forall x :: x in s <==> x in t
    ensures multiset(s) == multiset(t)
  {
    forall x ensures multiset(s)[x] == multiset(t)[x] {
      DistinctCount(s, x);
      DistinctCount(t, x);
    }
  }

  lemma {:induction false} DistinctCount<T>(s: seq<T>, x: T)
    requires forall i, j | 0 <= i < j < |s| :: s[i] != s[j]
    ensures multiset(s)[x] == if x in s then 1 else 0
  {
    if s != [] {
      var front, last := s[..|s| - 1], s[|s| - 1];
      DistinctCount(front, x);
      assert s == front + [last];
    }
  }

  // ----- mapping -----

  /** [f(x) for x in s] */
  function Mapped<A, B>(f: A -> B, s: seq<A>): (r: seq<B>)
    ensures |r| == |s|
  {
    if s == [] then [] else Mapped(f, s[..|s| - 1]) + [f(s[|s| - 1])]
  }

  lemma {:induction false} MappedAt<A, B>(f: A -> B, s: seq<A>)
    ensures forall i | 0 <= i < |s| :: Mapped(f, s)[i] == f(s[i])
  {
    if s != [] { MappedAt(f, s[..|s| - 1]); }
  }

  lemma MappedNext<A, B>(f: A -> B, s: seq<A>, i: nat)
    requires i < |s|
    ensures Mapped(f, s[..i + 1]) == Mapped(f, s[..i]) + [f(s[i])]
  {
    assert s[..i + 1][..i] == s[..i];
  }

  lemma {:induction false} MappedConcat<A, B>(f: A -> B, s: seq<A>, t: seq<A>)
    ensures Mapped(f, s + t) == Mapped(f, s) + Mapped(f, t)
  {
    if t == [] {
      assert s + t == s;
    } else {
      MappedConcat(f, s, t[..|t| - 1]);
      assert (s + t)[..|s + t| - 1] == s + t[..|t| - 1];
    }
  }

  lemma RemoveAt<T>(s: seq<T>, k: nat)
    requires k < |s|
    ensures s == s[..k] + [s[k]] + s[k + 1..]
    ensures multiset(s) == multiset(s[..k] + s[k + 1..]) + multiset{s[k]}
  {
    assert s == s[..k] + [s[k]] + s[k + 1..];
  }

  function InsertAt<T>(s: seq<T>, k: nat, x: T): (r: seq<T>)
    requires k <= |s|
    ensures |r| == |s| + 1
    ensures forall i | 0 <= i < |r| :: r[i] == if i < k then s[i] else if i == k then x else s[i - 1]
    ensures multiset(r) == multiset(s) + multiset{x}
  {
    assert s == s[..k] + s[k..];
    s[..k] + [x] + s[k..]
  }

  /** The position of the last element of s in a permutation of s. */
  lemma FindLast<T>(s: seq<T>, t: seq<T>) returns (k: nat)
    requires multiset(s) == multiset(t) && s != []
    ensures k < |t| && t[k] == s[|s| - 1]
    ensures multiset(s[..|s| - 1]) == multiset(t[..k] + t[k + 1..])
  {
    assert s[|s| - 1] in multiset(t);
    k :| 0 <= k < |t| && t[k] == s[|s| - 1];
    FrontMultiset(s);
    RemoveAt(t, k);
  }

  lemma TwicePositions<T>(s: seq<T>, x: T, y: T, rest: multiset<T>)
    requires multiset(s) == rest + multiset{y} && x in rest
    ensures exists a, b :: 0 <= a < |s| && 0 <= b < |s| && a != b && s[a] == x && s[b] == y
  {
    assert y in multiset(s);
    var b :| 0 <= b < |s| && s[b] == y;
    OthersMultiset(s, b, rest);
    var a := PositionAmongOthers(s, b, x);
    assert a != b && s[a] == x && s[b] == y;
  }

  lemma OthersMultiset<T>(s: seq<T>, b: nat, rest: multiset<T>)
    requires b < |s| && multiset(s) == rest + multiset{s[b]}
    ensures multiset(s[..b] + s[b + 1..]) == rest
  {
    RemoveAt(s, b);
    var others := multiset(s[..b] + s[b + 1..]);
    assert others == others + multiset{s[b]} - multiset{s[b]};
    assert rest == rest + multiset{s[b]} - multiset{s[b]};
  }

  /** A member of the sequence without its element at b is at another position. */
  lemma PositionAmongOthers<T>(s: seq<T>, b: nat, x: T) returns (a: nat)
    requires b < |s| && x in multiset(s[..b] + s[b + 1..])
    ensures a < |s| && a != b && s[a] == x
  {
    var others := s[..b] + s[b + 1..];
    assert x in others;
    var i :| 0 <= i < |others| && others[i] == x;
    a := if i < b then i else i + 1;
  }
}
