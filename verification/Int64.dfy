/** 64-bit numbers in two 32-bit halves (INT64.C). Every step on a half wraps round at 2^32. */
module Int64 {
  import opened Bytes

  const HALF := 0x1_0000_0000

  type Half = h: nat | h < HALF

  datatype Uint64 = Uint64(hi: Half, lo: Half)

  function Value(x: Uint64): nat {
    HALF * x.hi + x.lo
  }

  /** Addition of C's unsigned long. */
  function Wrap(n: nat): Half {
    n % HALF
  }

  /** 0x80000000 / 10 and its remainder, with which 2^32 * r2 is divided by ten. */
  const TENTH := 214_748_364
  const REST := 8

  /** uint64_div10. The sums of both halves stay below 2^32, so that the wrapping additions are exact. */
  method Div10(x: Uint64) returns (y: Uint64, remainder: nat)
    ensures Value(x) == 10 * Value(y) + remainder && remainder < 10
    ensures LowSum(x) < HALF && y.lo == LowSum(x)
  {
    assert TENTH == 0x8000_0000 / 10 && REST == 0x8000_0000 % 10;
    var hi, lo, rem: nat, r2: nat := x.hi / 10, x.lo / 10, x.lo % 10, x.hi % 10;
    LowHalfFits(x, lo, rem, r2);
    lo := Wrap(lo + r2 * 2 * TENTH);
    rem := rem + r2 * 2 * REST;
    lo := Wrap(lo + rem / 10);
    rem := rem % 10;
    Exact(x, hi, lo, rem, r2);
    return Uint64(hi, lo), rem;
  }

  /** What the low half comes to before any wrapping. */
  function LowSum(x: Uint64): nat {
    x.lo / 10 + x.hi % 10 * 2 * TENTH + (x.lo % 10 + x.hi % 10 * 2 * REST) / 10
  }

  lemma LowHalfFits(x: Uint64, lo: nat, rem: nat, r2: nat)
    requires lo == x.lo / 10 && rem == x.lo % 10 && r2 == x.hi % 10
    ensures LowSum(x) < HALF
    ensures Wrap(lo + r2 * 2 * TENTH) == lo + r2 * 2 * TENTH
    ensures Wrap(lo + r2 * 2 * TENTH + (rem + r2 * 2 * REST) / 10) == LowSum(x)
    ensures 10 * LowSum(x) + (rem + r2 * 2 * REST) % 10 == HALF * r2 + x.lo
  {
    var t := rem + r2 * 2 * REST;
    assert x.lo == 10 * lo + rem;
    assert t == 10 * (t / 10) + t % 10;
    assert LowSum(x) == lo + r2 * 2 * TENTH + t / 10;
    assert lo <= 429_496_729 && r2 <= 9 && t <= 149 + rem - 5;
  }

  lemma Exact(x: Uint64, hi: nat, lo: nat, rem: nat, r2: nat)
    requires hi == x.hi / 10 && r2 == x.hi % 10 && 10 * lo + rem == HALF * r2 + x.lo
    ensures HALF * x.hi + x.lo == 10 * (HALF * hi + lo) + rem
  {
    assert x.hi == 10 * hi + r2;
  }

  /** With not one to spare: the largest number reaches 2^32 - 1. */
  lemma LowHalfIsTight()
    ensures exists x :: LowSum(x) == HALF - 1
  {
    assert LowSum(Uint64(9, 0xFFFF_FFFF)) == HALF - 1;
  }

  function Power10(n: nat): (p: nat)
    ensures p > 0
  {
    if n == 0 then 1 else 10 * Power10(n - 1)
  }

  /** The number that decimal digits stand for. */
  function Read(text: bytes): int {
    if text == [] then 0 else 10 * Read(text[..|text| - 1]) + text[|text| - 1] as int - 48
  }

  /** Digits in front of a text count by their place. */
  lemma {:induction false} ReadJoin(a: bytes, b: bytes)
    ensures Read(a + b) == Read(a) * Power10(|b|) + Read(b)
    decreases |b|
  {
    if b == [] {
      assert a + b == a;
    } else {
      var n := |b| - 1;
      assert (a + b)[..|a + b| - 1] == a + b[..n];
      ReadJoin(a, b[..n]);
      TenTimes(Read(a), Power10(n));
    }
  }

  lemma TenTimes(x: int, p: int)
    ensures 10 * (x * p) == x * (10 * p)
  {
  }

  predicate Digits(text: bytes) {
    forall k :: 0 <= k < |text| ==> 48 <= text[k] < 58
  }

  lemma TwentyDigits()
    ensures Power10(20) > HALF * HALF
  {
    assert Power10(4) == 1_0000;
    assert Power10(8) == 1_0000_0000;
    assert Power10(12) == 1_0000_0000_0000;
    assert Power10(16) == 1_0000_0000_0000_0000;
  }

  /** uint64_decimal, up to the copy into the caller's buffer: twenty bytes are always enough, and the text has no
      leading zero. Zero becomes the empty text. */
  method Decimal(number: Uint64) returns (text: bytes)
    ensures Digits(text) && Read(text) == Value(number) && |text| <= 20
    ensures text != [] ==> text[0] != 48
    ensures text == [] <==> Value(number) == 0
  {
    TwentyDigits();
    hide Built, Power10, Read, Digits;
    var buf := new byte[20];
    var start := 20;
    var x := number;
    StartOfText(number);
    assert buf[20..] == [];
    while x.hi != 0 || x.lo != 0
      invariant 0 <= start <= 20 && Value(x) < Power10(start)
      invariant Built(number, x, buf[start..])
      decreases Value(x)
    {
      ghost var after := buf[start..];
      var y, d := Div10(x);
      Fewer(x, y, d, start);
      assert start > 0;
      start := start - 1;
      buf[start] := d + 48;
      assert buf[start..] == [buf[start]] + after;
      OneMore(number, x, y, d, after);
      x := y;
    }
    text := buf[start..];
    AllDigits(number, x, text);
  }

  lemma Fewer(x: Uint64, y: Uint64, d: nat, n: nat)
    requires Value(x) > 0 && Value(x) < Power10(n) && Value(x) == 10 * Value(y) + d
    ensures n > 0 && Value(y) < Power10(n - 1)
  {
  }

  lemma AllDigits(number: Uint64, x: Uint64, text: bytes)
    requires Built(number, x, text) && Value(x) == 0
    ensures Digits(text) && Read(text) == Value(number)
    ensures text != [] ==> text[0] != 48
    ensures text == [] ==> Value(number) == 0
    ensures Value(number) == 0 ==> text == []
  {
    if text != [] { LeadingDigit(text); }
  }

  lemma {:induction false} LeadingDigit(text: bytes)
    requires Digits(text) && text != [] && text[0] != 48
    ensures Read(text) > 0
    decreases |text|
  {
    var n := |text| - 1;
    if n > 0 {
      LeadingDigit(text[..n]);
    } else {
      assert text[..0] == [];
    }
  }

  /** `text` holds the digits of `number` after those of `x`. */
  ghost predicate Built(number: Uint64, x: Uint64, text: bytes) {
    && Digits(text)
    && Value(x) * Power10(|text|) + Read(text) == Value(number)
    && (if text == [] then x == number else Value(x) == 0 ==> text[0] != 48)
  }

  lemma StartOfText(number: Uint64)
    ensures Built(number, number, [])
  {
  }

  lemma OneMore(number: Uint64, x: Uint64, y: Uint64, d: nat, text: bytes)
    requires Built(number, x, text) && Value(x) > 0 && Value(x) == 10 * Value(y) + d && d < 10
    ensures Built(number, y, [d + 48] + text)
  {
    ReadJoin([d + 48], text);
    OneDigit(d + 48);
    Shifted(Value(y), d, Power10(|text|));
  }

  lemma OneDigit(b: byte)
    ensures Read([b]) == b as int - 48
  {
    assert [b][..0] == [];
  }

  lemma Shifted(y: nat, d: nat, p: nat)
    ensures (10 * y + d) * p == y * (10 * p) + d * p
  {
  }

  /** uint64_add. */
  function Add(x: Uint64, y: Uint64): (r: Uint64)
    ensures Value(r) == (Value(x) + Value(y)) % (HALF * HALF)
  {
    var lo := Wrap(x.lo + y.lo);
    var carry := if lo < y.lo then 1 else 0;
    Carries(x, y);
    Uint64(Wrap(x.hi + y.hi + carry), lo)
  }

  lemma Carries(x: Uint64, y: Uint64)
    ensures var lo := Wrap(x.lo + y.lo);
      var carry := if lo < y.lo then 1 else 0;
      && HALF * carry + lo == x.lo + y.lo
      && HALF * Wrap(x.hi + y.hi + carry) + lo == (Value(x) + Value(y)) % (HALF * HALF)
  {
    var lo := Wrap(x.lo + y.lo);
    var carry := if lo < y.lo then 1 else 0;
    var h := x.hi + y.hi + carry;
    assert Value(x) + Value(y) == HALF * h + lo;
    assert h == HALF * (h / HALF) + h % HALF;
    assert h / HALF == 0 || h / HALF == 1;
  }

  /** uint64_compare. */
  function Compare(x: Uint64, y: Uint64): (c: int)
    ensures (c < 0 <==> Value(x) < Value(y)) && (c == 0 <==> x == y) && (c > 0 <==> Value(x) > Value(y))
  {
    if x.hi != y.hi then (if x.hi < y.hi then -1 else 1)
    else if x.lo != y.lo then (if x.lo < y.lo then -1 else 1)
    else 0
  }
}
