/** backend/shared_domain/ids.py: the ULID generator, against the decoder in tools/kpi_extract.py. */
module Ulid {
  import opened Sequences
  import opened Text

  const ALPHABET := "0123456789ABCDEFGHJKMNPQRSTVWXYZ"

  function Pow32(n: nat): (r: nat)
    ensures r > 0
  {
    if n == 0 then 1 else 32 * Pow32(n - 1)
  }

  // ----- the encoder -----

  /** The numeral of value without leading zeros, "" for zero. */
  function Numeral(value: nat): string {
    if value == 0 then "" else Numeral(value / 32) + [ALPHABET[value % 32]]
  }

  function Zeros(n: nat): (r: string)
    ensures |r| == n
  {
    if n == 0 then "" else Zeros(n - 1) + ['0']
  }

  /** s.rjust(length, "0") */
  function RightJustified(s: string, length: nat): string {
    if |s| < length then Zeros(length - |s|) + s else s
  }

  /** _encode_base32: values of zero and below give zeros, values too large lose their last digits. */
  function Encoded(value: int, length: nat): string {
    var numeral := if value > 0 then Numeral(value) else "0";
    var padded := RightJustified(numeral, length);
    if |padded| > length then padded[..length] else padded
  }

  function Reversed(s: string): string {
    if s == [] then [] else [s[|s| - 1]] + Reversed(s[..|s| - 1])
  }

  lemma ReversedPush(chars: string, c: char)
    ensures Reversed(chars + [c]) == [c] + Reversed(chars)
  {
    assert (chars + [c])[..|chars|] == chars;
  }

  lemma PushDigit(current: nat, chars: string)
    requires current > 0
    ensures Numeral(current) + Reversed(chars)
         == Numeral(current / 32) + Reversed(chars + [ALPHABET[current % 32]])
  {
    var front, c := Numeral(current / 32), ALPHABET[current % 32];
    assert Numeral(current) == front + [c];
    ReversedPush(chars, c);
    ConcatAssociative(front, [c], Reversed(chars));
  }

  method EncodeBase32(value: int, length: nat) returns (r: string)
    ensures r == Encoded(value, length)
  {
    var chars: string := [];
    var current := value;
    while current > 0
      invariant value <= 0 ==> chars == []
      invariant value > 0 ==> current >= 0 && Numeral(value) == Numeral(current) + Reversed(chars)
      invariant value > 0 && chars == [] ==> current == value
    {
      PushDigit(current, chars);
      var remainder := current % 32;
      current := current / 32;
      chars := chars + [ALPHABET[remainder]];
    }
    assert value > 0 ==> chars != [] && Numeral(value) == Reversed(chars) by { assert Numeral(0) == ""; }
    var encoded := if chars == [] then "0" else Reversed(chars);
    var padded := RightJustified(encoded, length);
    r := if |padded| > length then padded[..length] else padded;
  }

  // ----- what it computes: the numeral of exactly `length` digits -----

  function Digits(value: nat, length: nat): (r: string)
    ensures |r| == length
  {
    if length == 0 then "" else Digits(value / 32, length - 1) + [ALPHABET[value % 32]]
  }

  lemma {:induction false} DigitsOfZero(length: nat)
    ensures Digits(0, length) == Zeros(length)
  {
    if length > 0 { DigitsOfZero(length - 1); }
  }

  lemma {:induction false} NumeralFits(value: nat, length: nat)
    requires value < Pow32(length)
    ensures |Numeral(value)| <= length && RightJustified(Numeral(value), length) == Digits(value, length)
  {
    if value == 0 {
      DigitsOfZero(length);
    } else {
      NumeralFits(value / 32, length - 1);
      var front := Numeral(value / 32);
      assert RightJustified(front + [ALPHABET[value % 32]], length)
          == RightJustified(front, length - 1) + [ALPHABET[value % 32]];
    }
  }

  lemma EncodedIsDigits(value: nat, length: nat)
    requires value < Pow32(length) && length > 0
    ensures Encoded(value, length) == Digits(value, length)
  {
    NumeralFits(value, length);
    if value == 0 {
      DigitsOfZero(length);
      assert RightJustified("0", length) == Zeros(length);
    }
  }

  /** One digit too many is cut at the end: v and 32 * v + d get the same text, so uniqueness needs the bound. */
  lemma OverflowCollides(v: nat, d: nat, length: nat)
    requires length > 0 && Pow32(length - 1) <= v < Pow32(length) && d < 32
    ensures Encoded(32 * v + d, length) == Encoded(v, length)
  {
    NumeralLength(v, length);
    assert (32 * v + d) / 32 == v;
  }

  ghost predicate InjectiveBelow(n: nat, length: nat) {
    forall a: nat, b: nat | a < b < n :: Encoded(a, length) != Encoded(b, length)
  }

  /** The bound is exact: encoding is injective below n if and only if n is at most 32^length. */
  lemma InjectiveIff(n: nat, length: nat)
    requires length > 0
    ensures InjectiveBelow(n, length) <==> n <= Pow32(length)
  {
    if n <= Pow32(length) {
      forall a: nat, b: nat | a < b < n ensures Encoded(a, length) != Encoded(b, length) { EncodedDiffer(a, b, length); }
    } else {
      var a, b := FirstCollision(length);
      NotInjectiveBelow(a, b, n, length);
    }
  }

  /** 32^length itself is encoded like its quotient by 32. */
  lemma FirstCollision(length: nat) returns (a: nat, b: nat)
    requires length > 0
    ensures a < b == Pow32(length) && Encoded(a, length) == Encoded(b, length)
  {
    var d: nat := 0;
    a := Pow32(length - 1);
    b := 32 * a + d;
    OverflowCollides(a, d, length);
  }

  lemma NotInjectiveBelow(a: nat, b: nat, n: nat, length: nat)
    requires a < b < n && Encoded(a, length) == Encoded(b, length)
    ensures !InjectiveBelow(n, length)
  {
  }

  lemma EncodedDiffer(a: nat, b: nat, length: nat)
    requires length > 0 && a < b < Pow32(length)
    ensures Encoded(a, length) != Encoded(b, length)
  {
    EncodedIsDigits(a, length);
    EncodedIsDigits(b, length);
    DigitsDecode(a, length);
    DigitsDecode(b, length);
  }

  lemma {:induction false} NumeralLength(v: nat, length: nat)
    requires length > 0 && Pow32(length - 1) <= v < Pow32(length)
    ensures |Numeral(v)| == length
  {
    if length > 1 {
      NumeralLength(v / 32, length - 1);
    } else {
      assert v / 32 == 0;
    }
  }

  // ----- the decoder -----

  /** ULID_CHAR_TO_VALUE.get(char) */
  function CharValue(symbols: string, c: char): Option<nat> {
    if symbols == [] then None
    else if symbols[|symbols| - 1] == c then Some(|symbols| - 1)
    else CharValue(symbols[..|symbols| - 1], c)
  }

  function Value(s: string): Option<nat> {
    if s == [] then Some(0)
    else match Value(s[..|s| - 1])
      case None => None
      case Some(front) =>
        match CharValue(ALPHABET, s[|s| - 1])
        case None => None
        case Some(digit) => Some(front * 32 + digit)
  }

  /** _ulid_timestamp_ms; upper is str.upper */
  function Timestamp(value: string, upper: string -> string): Option<nat> {
    var normalized := upper(Strip(value));
    if |normalized| < 10 then None else Value(normalized[..10])
  }

  method UlidTimestampMs(value: string, upper: string -> string) returns (r: Option<nat>)
    ensures r == Timestamp(value, upper)
  {
    var normalized := upper(Strip(value));
    if |normalized| < 10 { return None; }
    var timestamp := 0;
    for i := 0 to 10
      invariant Value(normalized[..i]) == Some(timestamp)
    {
      var digit := CharValue(ALPHABET, normalized[i]);
      assert normalized[..i + 1][..i] == normalized[..i];
      if digit.None? {
        ValueStops(normalized[..10], i + 1);
        assert normalized[..10][..i + 1] == normalized[..i + 1];
        return None;
      }
      timestamp := timestamp * 32 + digit.value;
    }
    r := Some(timestamp);
  }

  lemma {:induction false} ValueStops(s: string, n: nat)
    requires n <= |s| && Value(s[..n]).None?
    ensures Value(s).None?
  {
    if n == |s| {
      assert s[..n] == s;
    } else {
      assert s[..|s| - 1][..n] == s[..n];
      ValueStops(s[..|s| - 1], n);
    }
  }

  // ----- order and round trip -----

  lemma NextSymbolGreater(i: nat)
    requires i < 31
    ensures ALPHABET[i] < ALPHABET[i + 1]
  {
  }

  lemma {:induction false} SymbolsAscend(i: nat, j: nat)
    requires i < j < 32
    ensures ALPHABET[i] < ALPHABET[j]
  {
    NextSymbolGreater(j - 1);
    if i < j - 1 { SymbolsAscend(i, j - 1); }
  }

  lemma {:induction false} CharValueOfSymbol(n: nat, d: nat)
    requires d < n <= 32
    ensures CharValue(ALPHABET[..n], ALPHABET[d]) == Some(d)
  {
    assert ALPHABET[..n][..n - 1] == ALPHABET[..n - 1];
    if d < n - 1 {
      SymbolsAscend(d, n - 1);
      CharValueOfSymbol(n - 1, d);
    }
  }

  /** The decoder inverts the encoder. */
  lemma {:induction false} DigitsDecode(value: nat, length: nat)
    requires value < Pow32(length)
    ensures Value(Digits(value, length)) == Some(value)
  {
    if length > 0 {
      DigitsDecode(value / 32, length - 1);
      LastDigitDecodes(Digits(value / 32, length - 1), Digits(value, length), value);
    }
  }

  lemma LastDigitDecodes(front: string, s: string, value: nat)
    requires Value(front) == Some(value / 32) && s == front + [ALPHABET[value % 32]]
    ensures Value(s) == Some(value)
  {
    ValueOfPush(front, value / 32, value % 32);
  }

  lemma ValueOfPush(s: string, front: nat, d: nat)
    requires Value(s) == Some(front) && d < 32
    ensures Value(s + [ALPHABET[d]]) == Some(front * 32 + d)
  {
    CharValueOfSymbol(32, d);
    assert ALPHABET[..32] == ALPHABET;
    assert (s + [ALPHABET[d]])[..|s|] == s;
  }

  lemma {:induction false} LessConcat(a: string, b: string, u: string, v: string)
    requires |a| == |b|
    ensures Less(a + u, b + v) <==> Less(a, b) || (a == b && Less(u, v))
  {
    if a == [] {
      assert a + u == u && b + v == v;
    } else {
      assert (a + u)[1..] == a[1..] + u && (b + v)[1..] == b[1..] + v;
      assert a == [a[0]] + a[1..] && b == [b[0]] + b[1..];
      LessConcat(a[1..], b[1..], u, v);
    }
  }

  /** Numerals of one length sort as the numbers do. */
  lemma {:induction false} DigitsOrdered(a: nat, b: nat, length: nat)
    requires a < b < Pow32(length)
    ensures Less(Digits(a, length), Digits(b, length))
  {
    if length > 0 {
      LessConcat(Digits(a / 32, length - 1), Digits(b / 32, length - 1), [ALPHABET[a % 32]], [ALPHABET[b % 32]]);
      if a / 32 == b / 32 {
        SymbolsAscend(a % 32, b % 32);
      } else {
        DigitsOrdered(a / 32, b / 32, length - 1);
      }
    }
  }

  /** Below 32^length encoding is injective and keeps the order. */
  lemma EncodedOrder(a: nat, b: nat, length: nat)
    requires length > 0 && a < Pow32(length) && b < Pow32(length)
    ensures Less(Encoded(a, length), Encoded(b, length)) <==> a < b
    ensures Encoded(a, length) == Encoded(b, length) <==> a == b
  {
    EncodedIsDigits(a, length);
    EncodedIsDigits(b, length);
    LessIrreflexive(Digits(a, length));
    if a < b {
      DigitsOrdered(a, b, length);
    } else if b < a {
      DigitsOrdered(b, a, length);
      LessAsymmetric(Digits(b, length), Digits(a, length));
    }
  }

  // ----- the generator -----

  datatype Counter = Counter(millis: int, count: int)

  const START := Counter(0, -1)

  function Tick(c: Counter, now: int): Counter {
    if now == c.millis then Counter(c.millis, c.count + 1) else Counter(now, 0)
  }

  function Id(c: Counter): string {
    Encoded(c.millis, 10) + Encoded(c.count, 16)
  }

  class Generator {
    var lastMillis: int
    var lastCounter: int

    function State(): Counter
      reads this
    {
      Counter(lastMillis, lastCounter)
    }

    constructor ()
      ensures State() == START
    {
      lastMillis, lastCounter := 0, -1;
    }

    method NewUlid(now: int) returns (id: string)
      modifies this
      ensures State() == Tick(old(State()), now) && id == Id(State())
    {
      if now == lastMillis {
        lastCounter := lastCounter + 1;
      } else {
        lastMillis := now;
        lastCounter := 0;
      }
      var ts := EncodeBase32(now, 10);
      var counter := EncodeBase32(lastCounter, 16);
      id := ts + counter;
    }
  }

  // ----- whole runs: the ids drawn for a sequence of clock reads -----

  function After(clock: seq<int>): Counter {
    if clock == [] then START else Tick(After(clock[..|clock| - 1]), clock[|clock| - 1])
  }

  /** The generator's state when it draws id number i. */
  function At(clock: seq<int>, i: nat): Counter
    requires i < |clock|
  {
    After(clock[..i + 1])
  }

  function Drawn(clock: seq<int>, i: nat): string
    requires i < |clock|
  {
    Id(At(clock, i))
  }

  /** Clock reads fit ten digits, counters sixteen. */
  ghost predicate InRange(clock: seq<int>) {
    forall i | 0 <= i < |clock| :: 0 <= clock[i] < Pow32(10) && At(clock, i).count < Pow32(16)
  }

  lemma AtFacts(clock: seq<int>, i: nat)
    requires i < |clock|
    ensures At(clock, i).millis == clock[i] && At(clock, i).count >= 0
    ensures i > 0 ==> At(clock, i) == Tick(At(clock, i - 1), clock[i])
    ensures i > 0 ==> At(clock, i).count == if clock[i] == clock[i - 1] then At(clock, i - 1).count + 1 else 0
    ensures i == 0 ==> At(clock, i).count == 0
  {
    assert clock[..i + 1][..i] == clock[..i];
    if i > 0 { AtFacts(clock, i - 1); } else { assert After(clock[..0]) == START; }
  }

  /** Ids compare as (milliseconds, counter) pairs do. */
  lemma DrawnOrder(clock: seq<int>, i: nat, j: nat)
    requires InRange(clock) && i < |clock| && j < |clock|
    ensures Less(Drawn(clock, i), Drawn(clock, j)) <==>
              clock[i] < clock[j] || (clock[i] == clock[j] && At(clock, i).count < At(clock, j).count)
    ensures Drawn(clock, i) == Drawn(clock, j) <==> At(clock, i) == At(clock, j)
  {
    AtFacts(clock, i);
    AtFacts(clock, j);
    var (a, b) := (At(clock, i), At(clock, j));
    EncodedOrder(a.millis, b.millis, 10);
    EncodedOrder(a.count, b.count, 16);
    EncodedIsDigits(a.millis, 10);
    EncodedIsDigits(b.millis, 10);
    LessConcat(Encoded(a.millis, 10), Encoded(b.millis, 10), Encoded(a.count, 16), Encoded(b.count, 16));
    if Drawn(clock, i) == Drawn(clock, j) {
      assert Encoded(a.millis, 10) == Drawn(clock, i)[..10] == Drawn(clock, j)[..10] == Encoded(b.millis, 10);
      assert Encoded(a.count, 16) == Drawn(clock, i)[10..] == Drawn(clock, j)[10..] == Encoded(b.count, 16);
    }
  }

  ghost predicate Increasing(clock: seq<int>) {
    forall i, j | 0 <= i < j < |clock| :: Less(Drawn(clock, i), Drawn(clock, j))
  }

  ghost predicate NonDecreasing(clock: seq<int>) {
    forall i, j | 0 <= i < j < |clock| :: clock[i] <= clock[j]
  }

  lemma {:induction false} LaterCountsMore(clock: seq<int>, i: nat, j: nat)
    requires NonDecreasing(clock) && i < j < |clock| && clock[i] == clock[j]
    ensures At(clock, i).count < At(clock, j).count
  {
    AtFacts(clock, j);
    assert clock[j - 1] <= clock[j];
    if i < j - 1 {
      assert clock[i] <= clock[j - 1];
      LaterCountsMore(clock, i, j - 1);
    }
  }

  /** The ids of a run ascend exactly when the clock never goes back. */
  lemma IncreasingIff(clock: seq<int>)
    requires InRange(clock)
    ensures Increasing(clock) <==> NonDecreasing(clock)
  {
    if NonDecreasing(clock) {
      forall i, j | 0 <= i < j < |clock| ensures Less(Drawn(clock, i), Drawn(clock, j)) {
        DrawnOrder(clock, i, j);
        if clock[i] == clock[j] { LaterCountsMore(clock, i, j); }
      }
    }
    if Increasing(clock) {
      forall i, j | 0 <= i < j < |clock| ensures clock[i] <= clock[j] { DrawnOrder(clock, i, j); }
    }
  }

  ghost predicate Unique(clock: seq<int>) {
    forall i, j | 0 <= i < j < |clock| :: Drawn(clock, i) != Drawn(clock, j)
  }

  /** Once the clock has left a millisecond it never shows it again. */
  ghost predicate NeverReturns(clock: seq<int>) {
    forall i, j, k | 0 <= i < j < k < |clock| && clock[i] == clock[k] :: clock[j] == clock[i]
  }

  lemma {:induction false} CountsUp(clock: seq<int>, i: nat, k: nat)
    requires NeverReturns(clock) && i < k < |clock| && clock[i] == clock[k]
    ensures At(clock, k).count == At(clock, i).count + (k - i)
  {
    AtFacts(clock, k);
    if i < k - 1 { CountsUp(clock, i, k - 1); }
  }

  /** The read that began the stretch of equal reads around i. */
  lemma {:induction false} StretchStart(clock: seq<int>, i: nat) returns (s: nat)
    requires i < |clock|
    ensures s <= i && clock[s] == clock[i] && At(clock, s).count == 0
  {
    AtFacts(clock, i);
    if i > 0 && clock[i - 1] == clock[i] { s := StretchStart(clock, i - 1); } else { s := i; }
  }

  lemma {:induction false} FirstReturn(clock: seq<int>, j: nat, k: nat) returns (s: nat)
    requires j < k < |clock| && clock[j] != clock[k]
    ensures j < s <= k && clock[s] == clock[k] && At(clock, s).count == 0
  {
    AtFacts(clock, k);
    if clock[k - 1] == clock[k] { s := FirstReturn(clock, j, k - 1); } else { s := k; }
  }

  /** Ids are unique exactly when no millisecond comes back after another one was read. */
  lemma UniqueIff(clock: seq<int>)
    requires InRange(clock)
    ensures Unique(clock) <==> NeverReturns(clock)
  {
    if NeverReturns(clock) {
      forall i, k | 0 <= i < k < |clock| ensures Drawn(clock, i) != Drawn(clock, k) {
        DrawnOrder(clock, i, k);
        AtFacts(clock, i);
        AtFacts(clock, k);
        if clock[i] == clock[k] { CountsUp(clock, i, k); }
      }
    }
    if !NeverReturns(clock) {
      var i, j, k :| 0 <= i < j < k < |clock| && clock[i] == clock[k] && clock[j] != clock[i];
      var a := StretchStart(clock, i);
      var b := FirstReturn(clock, j, k);
      AtFacts(clock, a);
      AtFacts(clock, b);
      DrawnOrder(clock, a, b);
    }
  }

  /** A clock that steps back by one millisecond and recovers draws the same id twice. */
  lemma ClockStepBackRepeatsAnId(m: int)
    ensures Drawn([m, m + 1, m], 0) == Drawn([m, m + 1, m], 2)
  {
    var clock := [m, m + 1, m];
    AtFacts(clock, 0);
    AtFacts(clock, 1);
    AtFacts(clock, 2);
  }

  lemma {:induction false} DigitsAreSymbols(value: nat, length: nat)
    ensures forall c | c in Digits(value, length) :: c in ALPHABET
  {
    if length > 0 { DigitsAreSymbols(value / 32, length - 1); }
  }

  lemma SymbolNotSpace(c: char)
    requires c in ALPHABET
    ensures !IsSpace(c)
  {
    var i :| 0 <= i < |ALPHABET| && ALPHABET[i] == c;
    if i > 0 { SymbolsAscend(0, i); }
    if i < 31 { SymbolsAscend(i, 31); }
  }

  /** Every id drawn in range gives back the milliseconds it was drawn at, for any str.upper that leaves it alone. */
  lemma TimestampRecovered(clock: seq<int>, i: nat, upper: string -> string)
    requires InRange(clock) && i < |clock| && upper(Drawn(clock, i)) == Drawn(clock, i)
    ensures Timestamp(Drawn(clock, i), upper) == Some(clock[i])
  {
    AtFacts(clock, i);
    var c := At(clock, i);
    EncodedIsDigits(c.millis, 10);
    EncodedIsDigits(c.count, 16);
    var id := Drawn(clock, i);
    DigitsAreSymbols(c.millis, 10);
    DigitsAreSymbols(c.count, 16);
    assert id[0] in Digits(c.millis, 10) && id[|id| - 1] == Digits(c.count, 16)[15];
    SymbolNotSpace(id[0]);
    SymbolNotSpace(id[|id| - 1]);
    StripFixed(id);
    assert id[..10] == Digits(c.millis, 10);
    DigitsDecode(c.millis, 10);
  }
}
