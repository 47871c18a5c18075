/** Big-endian numbers and counted integers inside key blobs, shared by both key file formats of IMPORT.C. */
module KeyNumbers {
  import opened Bytes

  // -------------------------------------------------------------------------------------------
  // Positional numbers
  // -------------------------------------------------------------------------------------------

  /** Bits in a digit: seven in a BER identifier, eight everywhere else. */
  datatype Width = Seven | Eight

  function Radix(w: Width): nat {
    if w.Seven? then 128 else 256
  }

  function Quotient(x: nat, w: Width): nat {
    if w.Seven? then x / 128 else x / 256
  }

  function Remainder(x: nat, w: Width): byte {
    if w.Seven? then x % 128 else x % 256
  }

  /** (x << w) | d. */
  function Append(x: nat, d: byte, w: Width): nat {
    if w.Seven? then 128 * x + d else 256 * x + d
  }

  /** The number whose digits are `d`, most significant first. */
  function Number(d: bytes, w: Width): nat {
    if d == [] then 0 else Append(Number(d[..|d| - 1], w), d[|d| - 1], w)
  }

  /** `x` without its last `k` digits: x >> 8k, or x >> 7k. */
  function Shift(x: nat, w: Width, k: nat): nat
    decreases k
  {
    if k == 0 then x else Shift(Quotient(x, w), w, k - 1)
  }

  /** The digits of `x`, at least one and no leading zero beyond that. */
  function Digits(x: nat, w: Width): (d: bytes)
    ensures 1 <= |d| && forall k :: 0 <= k < |d| ==> d[k] < Radix(w)
    ensures Number(d, w) == x
    ensures |d| > 1 ==> d[0] > 0
    decreases x
  {
    if x < Radix(w) then assert Number([], w) == 0; [x] else
      var q := Digits(Quotient(x, w), w);
      var d := q + [Remainder(x, w)];
      assert d[..|d| - 1] == q;
      d
  }

  /** Counting shifts until nothing is left finds the number of digits. */
  lemma {:induction false} ShiftsCountDigits(x: nat, w: Width, k: nat)
    requires 1 <= k <= |Digits(x, w)|
    ensures Shift(x, w, k) > 0 <==> k < |Digits(x, w)|
    decreases x
  {
    var q := Quotient(x, w);
    assert Shift(q, w, 0) == q;
    if k > 1 {
      ShiftsCountDigits(q, w, k - 1);
    }
  }

  /** The digit with `k` others after it is what `k` shifts bring to the end. */
  lemma {:induction false} ShiftFindsDigit(x: nat, w: Width, k: nat)
    requires k < |Digits(x, w)|
    ensures Digits(x, w)[|Digits(x, w)| - 1 - k] == Remainder(Shift(x, w, k), w)
    decreases x
  {
    if k > 0 {
      ShiftFindsDigit(Quotient(x, w), w, k - 1);
    }
  }

  lemma {:induction false} FewDigits(x: nat, w: Width, k: nat)
    requires 1 <= k && Shift(x, w, k) == 0
    ensures |Digits(x, w)| <= k
    decreases k
  {
    if x >= Radix(w) {
      assert Shift(Quotient(x, w), w, 0) == Quotient(x, w);
      FewDigits(Quotient(x, w), w, k - 1);
    }
  }

  /** The largest value of a C int here. */
  const INT_MAX := 0x7FFF_FFFF

  lemma IntDigits(x: nat)
    requires x <= INT_MAX
    ensures |Digits(x, Eight)| <= 4
  {
    var a := x / 256;
    var b := a / 256;
    var c := b / 256;
    assert c / 256 == 0;
    assert Shift(c, Eight, 1) == Shift(0, Eight, 0);
    assert Shift(b, Eight, 2) == Shift(c, Eight, 1);
    assert Shift(a, Eight, 3) == Shift(b, Eight, 2);
    FewDigits(x, Eight, 4);
  }

  lemma {:induction false} LeadingZero(d: bytes)
    ensures Number([0] + d, Eight) == Number(d, Eight)
  {
    var z: bytes := [0];
    if d == [] {
      assert z + d == z && z[..0] == [];
    } else {
      LeadingZero(d[..|d| - 1]);
      assert (z + d)[..|d|] == z + d[..|d| - 1];
    }
  }

  /** An integer of nonzero first byte is at least 256^(|d|-1), so longer integers are larger. */
  lemma {:induction false} SameNumberSameDigits(d: bytes, e: bytes)
    requires d != [] ==> d[0] != 0
    requires e != [] ==> e[0] != 0
    requires Number(d, Eight) == Number(e, Eight)
    ensures d == e
    decreases |d|
  {
    if d == [] {
      if e != [] { PositiveNumber(e); }
    } else if e == [] {
      PositiveNumber(d);
    } else {
      var m, n := |d| - 1, |e| - 1;
      assert d[m] == Number(d, Eight) % 256 == e[n];
      SameNumberSameDigits(d[..m], e[..n]);
      assert d == d[..m] + [d[m]] && e == e[..n] + [e[n]];
    }
  }

  lemma {:induction false} PositiveNumber(d: bytes)
    requires d != [] && d[0] != 0
    ensures Number(d, Eight) > 0
    decreases |d|
  {
    if |d| > 1 {
      PositiveNumber(d[..|d| - 1]);
    }
  }

  // -------------------------------------------------------------------------------------------
  // Counted strings
  // -------------------------------------------------------------------------------------------

  const LIMIT := 0x1_0000_0000

  /** PUT_32BIT: the low 32 bits of a number. */
  function Put32(n: nat): (w: bytes)
    ensures |w| == 4
    ensures n < LIMIT ==> Number(w, Eight) == n
  {
    var w: bytes := [n / 0x100_0000 % 256, n / 0x1_0000 % 256, n / 0x100 % 256, n % 256];
    FourDigits(w);
    assert n < LIMIT ==> Number(w, Eight) == n by { hide Number; if n < LIMIT { SplitWord(n); } }
    w
  }

  lemma SplitWord(n: nat)
    requires n < LIMIT
    ensures 0x100_0000 * (n / 0x100_0000 % 256) + 0x1_0000 * (n / 0x1_0000 % 256) + 0x100 * (n / 0x100 % 256)
            + n % 256 == n
  {
    assert n / 0x1_0000 == n / 0x100 / 256 && n / 0x100_0000 == n / 0x1_0000 / 256;
  }

  lemma JoinWord(a: byte, b: byte, c: byte, d: byte)
    ensures var n: nat := 0x100_0000 * (a as nat) + 0x1_0000 * (b as nat) + 0x100 * (c as nat) + d;
      n / 0x100_0000 == a && n / 0x1_0000 % 256 == b && n / 0x100 % 256 == c && n % 256 == d
  {
    var x: nat := 256 * (a as nat) + b;
    var y: nat := 256 * x + c;
    var n: nat := 256 * y + d;
    assert n / 256 == y && y / 256 == x && x / 256 == a;
    assert n / 0x1_0000 == n / 256 / 256 && n / 0x100_0000 == n / 0x1_0000 / 256;
  }

  lemma FourDigits(w: bytes)
    requires |w| == 4
    ensures Number(w, Eight) == 0x100_0000 * (w[0] as nat) + 0x1_0000 * (w[1] as nat) + 0x100 * (w[2] as nat) + w[3]
  {
    assert w[..3][..2] == w[..2] && w[..3][2] == w[2];
    assert w[..2][..1] == w[..1] && w[..2][1] == w[1];
    assert w[..1][..0] == [] && w[..1][0] == w[0];
    assert Number(w[..1], Eight) == w[0];
    assert Number(w[..2], Eight) == 256 * Number(w[..1], Eight) + w[1];
    assert Number(w[..3], Eight) == 256 * Number(w[..2], Eight) + w[2];
  }

  lemma Put32Get32(w: bytes)
    requires |w| == 4
    ensures Number(w, Eight) < LIMIT && Put32(Number(w, Eight)) == w
  {
    FourDigits(w);
    hide Number;
    JoinWord(w[0], w[1], w[2], w[3]);
  }

  /** put_string: a length and that many bytes. */
  function Str(s: bytes): bytes {
    Put32(|s|) + s
  }

  /** put_mp: a string that starts with a zero byte when the integer's own top bit is set. */
  function Mp(i: bytes): bytes {
    if i != [] && i[0] >= 128 then Str([0] + i) else Str(i)
  }

  /** Strings one after the other. */
  function Strs(v: seq<bytes>): bytes {
    if v == [] then [] else Str(v[0]) + Strs(v[1..])
  }

  lemma StrsCons(s: bytes, v: seq<bytes>)
    ensures Strs([s] + v) == Str(s) + Strs(v)
  {
    assert ([s] + v)[1..] == v;
  }

  lemma {:induction false} StrsJoin(v: seq<bytes>, w: seq<bytes>)
    ensures Strs(v + w) == Strs(v) + Strs(w)
    decreases |v|
  {
    hide Str;
    if v == [] {
      assert v + w == w;
    } else {
      assert (v + w)[1..] == v[1..] + w;
      StrsJoin(v[1..], w);
    }
  }

  lemma StrsSnoc(v: seq<bytes>, s: bytes)
    ensures Strs(v + [s]) == Strs(v) + Str(s)
    ensures Strs([s]) == Str(s)
  {
    assert Strs([]) == [];
    StrsCons(s, []);
    assert [s] + [] == [s] && Str(s) + [] == Str(s);
    hide Strs, Str;
    StrsJoin(v, [s]);
  }

  // -------------------------------------------------------------------------------------------
  // Reading counted integers
  // -------------------------------------------------------------------------------------------

  /** Lengths of integers are counted in bytes (RFC 4251, section 5) or, by ssh.com, in bits. */
  datatype Unit = InBytes | InBits

  function Size(n: nat, unit: Unit): nat {
    if unit.InBytes? then n else (n + 7) / 8
  }

  /** What ssh2_read_mpint and sshcom_read_mpint find at the head of `d`, and how far they move: past
      the integer, or to the very end when there is none. */
  function Mpint(d: bytes, unit: Unit): (r: (Option<bytes>, nat))
    ensures r.1 <= |d|
    ensures r.0.Some? ==> |r.0.value| + 4 == r.1
    ensures r.0.None? ==> r.1 == |d|
  {
    if |d| < 4 then (None, |d|)
    else
      var n := Size(Number(d[..4], Eight), unit);
      if |d| < 4 + n then (None, |d|) else (Some(d[4..4 + n]), 4 + n)
  }

  /** What read number `j` of several in a row finds. */
  function Nth(d: bytes, j: nat, unit: Unit): Option<bytes>
    decreases j
  {
    var m := Mpint(d, unit);
    if j == 0 then m.0 else Nth(d[m.1..], j - 1, unit)
  }

  /** The integers that `k` reads in a row find, and where the last one ends. */
  function Mpints(d: bytes, k: nat, unit: Unit): (r: Option<(seq<bytes>, nat)>)
    ensures r.Some? ==> |r.value.0| == k && r.value.1 <= |d|
    decreases k
  {
    if k == 0 then Some(([], 0))
    else
      var m := Mpint(d, unit);
      if m.0.None? then None
      else
        var later := Mpints(d[m.1..], k - 1, unit);
        if later.None? then None else Some(([m.0.value] + later.value.0, m.1 + later.value.1))
  }

  /** A failed read makes all later ones fail, so looking at the last integer covers the ones before it. */
  lemma {:induction false} LastFoundAllFound(d: bytes, k: nat, unit: Unit)
    requires k > 0
    ensures Nth(d, k - 1, unit).Some? <==> Mpints(d, k, unit).Some?
    ensures Nth(d, k - 1, unit).Some? ==> forall j :: 0 <= j < k ==>
            Nth(d, j, unit) == Some(Mpints(d, k, unit).value.0[j])
    decreases k
  {
    hide Mpint;
    var m := Mpint(d, unit);
    if k > 1 {
      LastFoundAllFound(d[m.1..], k - 1, unit);
      if m.0.None? {
        assert d[m.1..] == [];
        NothingLeft(k - 2, unit);
      }
    }
  }

  lemma {:induction false} NothingLeft(j: nat, unit: Unit)
    ensures Nth([], j, unit) == None
    decreases j
  {
    var none: bytes := [];
    assert none[0..] == [];
    if j > 0 {
      NothingLeft(j - 1, unit);
    }
  }

  lemma MpintOfStr(s: bytes, rest: bytes)
    requires |s| < LIMIT
    ensures Mpint(Str(s) + rest, InBytes) == (Some(s), 4 + |s|)
    ensures (Str(s) + rest)[4 + |s|..] == rest
  {
    hide Put32, Number;
    var d := Str(s) + rest;
    assert d == Put32(|s|) + s + rest;
    assert d[..4] == Put32(|s|) && d[4..4 + |s|] == s;
  }

  lemma StrOfMpint(d: bytes)
    requires Mpint(d, InBytes).0.Some?
    ensures var s := Mpint(d, InBytes).0.value;
      |s| < LIMIT && d[..4 + |s|] == Str(s)
  {
    Put32Get32(d[..4]);
    hide Put32, Number;
    var s := Mpint(d, InBytes).0.value;
    assert d[..4 + |s|] == d[..4] + s;
  }

  /** Reading strings back gives them, whatever follows. */
  lemma {:induction false} MpintsOfStrs(v: seq<bytes>, rest: bytes)
    requires forall k :: 0 <= k < |v| ==> |v[k]| < LIMIT
    ensures Mpints(Strs(v) + rest, |v|, InBytes) == Some((v, |Strs(v)|))
    decreases |v|
  {
    NoStrings(rest);
    hide Str, Mpint, Mpints, Strs, Number;
    if v != [] {
      var s, w := v[0], v[1..];
      assert v == [s] + w;
      MpintsOfStrs(w, rest);
      StrsCons(s, w);
      MpintsCons(s, Strs(w) + rest, |w|);
      LengthOfStr(s);
      assert Strs(v) + rest == Str(s) + (Strs(w) + rest);
    }
  }

  lemma NoStrings(d: bytes)
    ensures Strs([]) == [] && [] + d == d && d[0..] == d
    ensures Mpints(d, 0, InBytes) == Some(([], 0))
  {
  }

  lemma MpintsCons(s: bytes, later: bytes, k: nat)
    requires |s| < LIMIT && Mpints(later, k, InBytes).Some?
    ensures var (w, end) := Mpints(later, k, InBytes).value;
      Mpints(Str(s) + later, k + 1, InBytes) == Some(([s] + w, 4 + |s| + end))
  {
    MpintOfStr(s, later);
    hide Str, Mpint;
    MpintThen(Str(s) + later, k, InBytes);
  }

  lemma MpintThen(d: bytes, k: nat, unit: Unit)
    requires Mpint(d, unit).0.Some? && Mpints(d[Mpint(d, unit).1..], k, unit).Some?
    ensures var m := Mpint(d, unit);
      var (w, end) := Mpints(d[m.1..], k, unit).value;
      Mpints(d, k + 1, unit) == Some(([m.0.value] + w, m.1 + end))
  {
    hide Mpint;
  }

  /** The strings that were read stand in the blob verbatim. */
  lemma {:induction false} StrsOfMpints(d: bytes, k: nat)
    requires Mpints(d, k, InBytes).Some?
    ensures var (v, end) := Mpints(d, k, InBytes).value;
      d[..end] == Strs(v)
    decreases k
  {
    NoStrings(d);
    if k > 0 {
      MpintsUncons(d, k);
    }
    hide Str, Mpint, Mpints, Strs, Number;
    if k > 0 {
      var s := Mpint(d, InBytes).0.value;
      var tail := d[4 + |s|..];
      var (v, end) := Mpints(tail, k - 1, InBytes).value;
      StrOfMpint(d);
      StrsOfMpints(tail, k - 1);
      StrsCons(s, v);
      LengthOfStr(s);
      TwoSlices(d, 4 + |s|, end);
    }
  }

  lemma TwoSlices(d: bytes, m: nat, n: nat)
    requires m + n <= |d|
    ensures d[..m + n] == d[..m] + d[m..][..n]
  {
  }

  lemma MpintsUncons(d: bytes, k: nat)
    requires k > 0 && Mpints(d, k, InBytes).Some?
    ensures Mpint(d, InBytes).0.Some?
    ensures var s := Mpint(d, InBytes).0.value;
      && Mpints(d[4 + |s|..], k - 1, InBytes).Some?
      && var (v, end) := Mpints(d[4 + |s|..], k - 1, InBytes).value;
         Mpints(d, k, InBytes) == Some(([s] + v, 4 + |s| + end))
  {
    hide Mpint;
  }

  lemma LengthOfStr(s: bytes)
    ensures |Str(s)| == 4 + |s|
  {
  }
}
