/** Record keys: the padded decimal key of the Kafka topic (internal/storage/kafka/layout.go) and
    the big-endian key of the bbolt bucket (internal/storage/bolt/store.go). Both are fixed-width
    numerals, so their lexicographic order is the order of the sequences. */
module Layout {
  import opened Domain

  // ---- fixed-width numerals ----

  predicate AreDigits(ds: seq<nat>, base: nat) {
    forall i :: 0 <= i < |ds| ==> ds[i] < base
  }

  function Value(ds: seq<nat>, base: nat): (v: nat)
  {
    if ds == [] then 0 else Value(ds[..|ds| - 1], base) * base + ds[|ds| - 1]
  }

  function Digits(n: nat, base: nat, width: nat): (ds: seq<nat>)
    requires base >= 2
    ensures |ds| == width && AreDigits(ds, base)
  {
    if width == 0 then [] else Digits(n / base, base, width - 1) + [n % base]
  }

  function Pow(base: nat, e: nat): nat {
    if e == 0 then 1 else Pow(base, e - 1) * base
  }

  lemma DivBelow(n: nat, base: nat, p: nat)
    requires base >= 2 && n < p * base
    ensures n / base < p && n == (n / base) * base + n % base
  {
    var q: int := n / base - p;
    assert q >= 0 ==> q * base >= 0;
    assert (n / base) * base == p * base + q * base;
  }

  lemma {:induction false} ValueOfDigits(n: nat, base: nat, width: nat)
    requires base >= 2 && n < Pow(base, width)
    ensures Value(Digits(n, base, width), base) == n
  {
    if width > 0 {
      DivBelow(n, base, Pow(base, width - 1));
      ValueOfDigits(n / base, base, width - 1);
      assert Digits(n, base, width)[..width - 1] == Digits(n / base, base, width - 1);
    }
  }

  lemma SplitNumeral(a: nat, x: nat, base: nat)
    requires base >= 2 && x < base
    ensures (a * base + x) / base == a && (a * base + x) % base == x
  {
    var n := a * base + x;
    assert n == (n / base) * base + n % base;
    var d: int := n / base - a;
    assert d * base == x - n % base;
    assert d >= 1 ==> d * base >= base;
    assert d <= -1 ==> d * base + base <= 0;
  }

  lemma Multiply(a: nat, b: nat, base: nat)
    requires a <= b
    ensures a * base <= b * base
  {
  }

  lemma {:induction false} ValueIsBounded(ds: seq<nat>, base: nat)
    requires base >= 2 && AreDigits(ds, base)
    ensures Value(ds, base) < Pow(base, |ds|)
  {
    if ds != [] {
      var n := |ds| - 1;
      ValueIsBounded(ds[..n], base);
      Multiply(Value(ds[..n], base) + 1, Pow(base, n), base);
      assert (Value(ds[..n], base) + 1) * base == Value(ds[..n], base) * base + base;
    }
  }

  lemma {:induction false} DigitsOfValue(ds: seq<nat>, base: nat)
    requires base >= 2 && AreDigits(ds, base)
    ensures Digits(Value(ds, base), base, |ds|) == ds
  {
    if ds != [] {
      var n := |ds| - 1;
      DigitsOfValue(ds[..n], base);
      SplitNumeral(Value(ds[..n], base), ds[n], base);
      assert ds == ds[..n] + [ds[n]];
    }
  }

  /** The number of decimal digits of `n`. */
  function DecimalWidth(n: nat): nat {
    if n < 10 then 1 else 1 + DecimalWidth(n / 10)
  }

  /** Lexicographic order; on keys of one width it is Go's byte order. */
  predicate Less<T(==)>(a: seq<T>, b: seq<T>, rank: T -> int) {
    if a == [] then b != []
    else b != [] && (rank(a[0]) < rank(b[0]) || (a[0] == b[0] && Less(a[1..], b[1..], rank)))
  }

  function DigitRank(d: nat): int { d }

  function CharRank(c: char): int { c as int }

  lemma {:induction false} LessBySnoc(a: seq<nat>, b: seq<nat>, x: nat, y: nat)
    requires |a| == |b|
    ensures Less(a + [x], b + [y], DigitRank) <==> Less(a, b, DigitRank) || (a == b && x < y)
  {
    if a == [] {
      assert (a + [x])[1..] == [] && (b + [y])[1..] == [];
    } else {
      assert (a + [x])[1..] == a[1..] + [x] && (b + [y])[1..] == b[1..] + [y];
      LessBySnoc(a[1..], b[1..], x, y);
      assert a == [a[0]] + a[1..] && b == [b[0]] + b[1..];
    }
  }

  lemma NumeralOrder(a: nat, c: nat, x: nat, y: nat, base: nat)
    requires base >= 2 && x < base && y < base
    ensures a * base + x < c * base + y <==> a < c || (a == c && x < y)
  {
    if a < c { assert (a + 1) * base <= c * base; }
    if c < a { assert (c + 1) * base <= a * base; }
  }

  /** Digit strings of one width are ordered as the numbers they denote. */
  lemma {:induction false} LessIsNumeric(a: seq<nat>, b: seq<nat>, base: nat)
    requires base >= 2 && |a| == |b| && AreDigits(a, base) && AreDigits(b, base)
    ensures Less(a, b, DigitRank) <==> Value(a, base) < Value(b, base)
  {
    if a != [] {
      var n := |a| - 1;
      assert a == a[..n] + [a[n]] && b == b[..n] + [b[n]];
      LessIsNumeric(a[..n], b[..n], base);
      LessBySnoc(a[..n], b[..n], a[n], b[n]);
      NumeralOrder(Value(a[..n], base), Value(b[..n], base), a[n], b[n], base);
      DigitsOfValue(a[..n], base);
      DigitsOfValue(b[..n], base);
    }
  }

  lemma {:induction false} SameValueSameDigits(m: nat, n: nat, base: nat, width: nat)
    requires base >= 2 && m < Pow(base, width) && n < Pow(base, width)
    ensures Less(Digits(m, base, width), Digits(n, base, width), DigitRank) <==> m < n
    ensures Digits(m, base, width) == Digits(n, base, width) <==> m == n
  {
    ValueOfDigits(m, base, width);
    ValueOfDigits(n, base, width);
    LessIsNumeric(Digits(m, base, width), Digits(n, base, width), base);
  }

  lemma Widths()
    ensures MAX_UINT64 + 1 == Pow(256, 8) && MAX_UINT64 < Pow(10, 20)
  {
    assert Pow(256, 2) == 0x1_0000;
    assert Pow(256, 4) == 0x1_0000_0000;
    assert Pow(256, 6) == 0x1_0000_0000_0000;
    assert Pow(10, 4) == 1_0000;
    assert Pow(10, 8) == 1_0000_0000;
    assert Pow(10, 12) == 1_0000_0000_0000;
    assert Pow(10, 16) == 1_0000_0000_0000_0000;
  }

  // ---- the bbolt key ----

  type Byte = x: nat | x < 256
  type Bytes = seq<Byte>

  function Uint64Key(n: Uint64): (key: Bytes)
    ensures |key| == 8
  {
    Digits(n, 256, 8)
  }

  /** A stored counter of any other length reads as zero. */
  function ReadSequence(key: Bytes): (n: Uint64)
  {
    if |key| != 8 then 0
    else
      ValueIsBounded(key, 256);
      Widths();
      Value(key, 256)
  }

  predicate Before(a: Bytes, b: Bytes) {
    Less<nat>(a, b, DigitRank)
  }

  lemma BoltKeyOrder(m: Uint64, n: Uint64)
    ensures ReadSequence(Uint64Key(n)) == n
    ensures Before(Uint64Key(m), Uint64Key(n)) <==> m < n
    ensures Uint64Key(m) == Uint64Key(n) <==> m == n
  {
    Widths();
    ValueOfDigits(n, 256, 8);
    SameValueSameDigits(m, n, 256, 8);
  }

  // ---- the Kafka key ----

  const PREFIX: string := "v1/transition/"

  function DigitChar(d: nat): (c: char)
    requires d < 10
    ensures '0' <= c <= '9' && (c as int) - ('0' as int) == d
  {
    ('0' as int + d) as char
  }

  function Print(ds: seq<nat>): (s: string)
    requires AreDigits(ds, 10)
    ensures |s| == |ds|
    ensures forall i :: 0 <= i < |s| ==> s[i] == DigitChar(ds[i])
  {
    seq(|ds|, i requires 0 <= i < |ds| => DigitChar(ds[i]))
  }

  function Scan(s: string): (r: Option<seq<nat>>)
    ensures r.Some? <==> forall i :: 0 <= i < |s| ==> '0' <= s[i] <= '9'
    ensures r.Some? ==> AreDigits(r.value, 10) && Print(r.value) == s
  {
    if forall i :: 0 <= i < |s| ==> '0' <= s[i] <= '9' then
      var ds := seq(|s|, i requires 0 <= i < |s| => s[i] as int - '0' as int);
      assert Print(ds) == s;
      Some(ds)
    else None
  }

  function TransitionKey(n: Uint64): string {
    PREFIX + Print(Digits(n, 10, 20))
  }

  function ParseTransitionKey(key: string): (r: Option<Uint64>)
  {
    if |key| < |PREFIX| || key[..|PREFIX|] != PREFIX then None
    else
      var raw := key[|PREFIX|..];
      var ds := Scan(raw);
      if |raw| != 20 || ds.None? then None
      else
        var value := Value(ds.value, 10);
        if value > MAX_UINT64 || value == 0 then None else Some(value)
  }

  lemma PrintInjective(a: seq<nat>, b: seq<nat>)
    requires AreDigits(a, 10) && AreDigits(b, 10) && Print(a) == Print(b)
    ensures a == b
  {
    assert |a| == |b|;
    forall i | 0 <= i < |a| ensures a[i] == b[i] { assert Print(a)[i] == Print(b)[i]; }
  }

  /** Writing and parsing a key are inverse: exactly the keys of positive 64-bit sequences parse, so
      a key whose twenty digits exceed 64 bits is refused. */
  lemma KeyRoundTrip(n: Uint64, key: string)
    ensures n > 0 ==> ParseTransitionKey(TransitionKey(n)) == Some(n)
    ensures ParseTransitionKey(key) == Some(n) <==> n > 0 && key == TransitionKey(n)
  {
    Widths();
    var ds := Digits(n, 10, 20);
    var mine := TransitionKey(n);
    assert mine[..|PREFIX|] == PREFIX && mine[|PREFIX|..] == Print(ds);
    assert forall i :: 0 <= i < |Print(ds)| ==> '0' <= Print(ds)[i] <= '9';
    PrintInjective(Scan(Print(ds)).value, ds);
    ValueOfDigits(n, 10, 20);
    if ParseTransitionKey(key) == Some(n) {
      var raw := key[|PREFIX|..];
      var parsed := Scan(raw).value;
      DigitsOfValue(parsed, 10);
      assert key == PREFIX + raw;
    }
  }

  lemma {:induction false} PrintedOrder(a: seq<nat>, b: seq<nat>)
    requires |a| == |b| && AreDigits(a, 10) && AreDigits(b, 10)
    ensures Less(Print(a), Print(b), CharRank) <==> Less(a, b, DigitRank)
  {
    if a != [] {
      assert Print(a)[1..] == Print(a[1..]) && Print(b)[1..] == Print(b[1..]);
      assert Print(a)[0] == DigitChar(a[0]) && Print(b)[0] == DigitChar(b[0]);
      PrintedOrder(a[1..], b[1..]);
    }
  }

  lemma {:induction false} CommonPrefix(p: string, a: string, b: string)
    ensures Less(p + a, p + b, CharRank) <==> Less(a, b, CharRank)
  {
    if p == [] {
      assert p + a == a && p + b == b;
    } else {
      assert (p + a)[1..] == p[1..] + a && (p + b)[1..] == p[1..] + b;
      CommonPrefix(p[1..], a, b);
    }
  }

  lemma KafkaKeyOrder(m: Uint64, n: Uint64)
    ensures Less(TransitionKey(m), TransitionKey(n), CharRank) <==> m < n
  {
    Widths();
    CommonPrefix(PREFIX, Print(Digits(m, 10, 20)), Print(Digits(n, 10, 20)));
    PrintedOrder(Digits(m, 10, 20), Digits(n, 10, 20));
    SameValueSameDigits(m, n, 10, 20);
  }
}
