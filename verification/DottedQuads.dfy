/**
 * Dotted quads as a reader takes them: cut at the dots, every piece a decimal number. `Bytes.DottedQuad`
 * prints them ("%d.%d.%d.%d" in PORTFWD.C).
 */
module DottedQuads {
  import opened Bytes

  /** The pieces between the dots. */
  function Fields(text: bytes): (f: seq<bytes>)
    ensures f != []
  {
    if text == [] then [[]]
    else
      var f := Fields(text[1..]);
      if text[0] == DOT then [[]] + f else [[text[0]] + f[0]] + f[1..]
  }

  /** The number that decimal digits stand for. */
  function Value(digits: bytes): int {
    if digits == [] then 0 else 10 * Value(digits[..|digits| - 1]) + digits[|digits| - 1] as int - 48
  }

  /** Digits, and no leading zero. */
  predicate Numeral(d: bytes) {
    d != [] && (forall k :: 0 <= k < |d| ==> 48 <= d[k] < 58) && (|d| > 1 ==> d[0] != 48)
  }

  /** The text is a dotted quad that reads as this address. */
  predicate Reads(text: bytes, a: bytes) {
    var f := Fields(text);
    |f| == |a| == 4 && forall i :: 0 <= i < 4 ==> Numeral(f[i]) && Value(f[i]) == a[i]
  }

  lemma ValueOf(d: bytes)
    ensures |d| == 1 ==> Value(d) == d[0] as int - 48
    ensures |d| == 2 ==> Value(d) == 10 * (d[0] as int - 48) + (d[1] as int - 48)
    ensures |d| == 3 ==> Value(d) == 100 * (d[0] as int - 48) + 10 * (d[1] as int - 48) + (d[2] as int - 48)
  {
    if 1 <= |d| <= 3 {
      assert d[..0] == [] && Value(d[..0]) == 0;
      assert Value(d[..1]) == d[0] as int - 48 by { assert d[..1][..0] == []; }
      if |d| > 1 {
        assert d[..2][..1] == d[..1];
        assert Value(d[..2]) == 10 * Value(d[..1]) + (d[1] as int - 48);
      }
      assert d[..|d|] == d;
    }
  }

  /** Printing a byte gives its one numeral. */
  lemma DecimalReads(b: byte)
    ensures Numeral(Decimal(b)) && Value(Decimal(b)) == b
  {
    ValueOf(Decimal(b));
  }

  lemma LongNumeral(d: bytes)
    requires Numeral(d) && |d| > 3
    ensures Value(d) >= 1000
  {
    var n := |d| - 1;
    var e := d[..n];
    assert Numeral(e);
    if n == 3 {
      ValueOf(e);
    } else {
      LongNumeral(e);
    }
  }

  lemma OneNumeral(d: bytes, b: byte)
    requires Numeral(d) && Value(d) == b
    ensures d == Decimal(b)
  {
    if |d| > 3 {
      LongNumeral(d);
    }
    ValueOf(d);
  }

  lemma {:induction false} FieldsJoin(d: bytes, rest: bytes)
    requires DOT !in d
    ensures Fields(d + [DOT] + rest) == [d] + Fields(rest)
    ensures Fields(d) == [d]
    decreases |d|
  {
    var text := d + [DOT] + rest;
    if d == [] {
      assert text[1..] == rest;
    } else {
      FieldsJoin(d[1..], rest);
      assert text[1..] == d[1..] + [DOT] + rest;
      assert [d[0]] + d[1..] == d;
      assert ([d[1..]] + Fields(rest))[1..] == Fields(rest);
    }
  }

  function Join(f: seq<bytes>): bytes {
    if f == [] then [] else if |f| == 1 then f[0] else f[0] + [DOT] + Join(f[1..])
  }

  lemma {:induction false} JoinFields(text: bytes)
    ensures Join(Fields(text)) == text
    decreases |text|
  {
    if text != [] {
      var f := Fields(text[1..]);
      JoinFields(text[1..]);
      if text[0] == DOT {
        assert ([[]] + f)[1..] == f;
      } else if |f| > 1 {
        assert Fields(text)[1..] == f[1..];
        assert [text[0]] + (f[0] + [DOT] + Join(f[1..])) == [text[0]] + f[0] + [DOT] + Join(f[1..]);
      }
    }
  }

  lemma NoDot(b: byte)
    ensures DOT !in Decimal(b)
  {
  }

  lemma FieldsOfQuad(a: bytes)
    requires |a| == 4
    ensures Fields(DottedQuad(a)) == [Decimal(a[0]), Decimal(a[1]), Decimal(a[2]), Decimal(a[3])]
  {
    hide Decimal, Fields;
    var p, q, r, s := Decimal(a[0]), Decimal(a[1]), Decimal(a[2]), Decimal(a[3]);
    NoDot(a[0]);
    NoDot(a[1]);
    NoDot(a[2]);
    NoDot(a[3]);
    FieldsJoin(s, []);
    FieldsJoin(r, s);
    FieldsJoin(q, r + [DOT] + s);
    FieldsJoin(p, q + [DOT] + (r + [DOT] + s));
    assert DottedQuad(a) == p + [DOT] + (q + [DOT] + (r + [DOT] + s));
  }

  /** A text reads as an address if and only if it is what is printed for that address. */
  lemma DottedQuadReads(text: bytes, a: bytes)
    requires |a| == 4
    ensures Reads(text, a) <==> text == DottedQuad(a)
  {
    hide Decimal, Fields, Numeral, Value;
    FieldsOfQuad(a);
    forall i | 0 <= i < 4 ensures Numeral(Decimal(a[i])) && Value(Decimal(a[i])) == a[i] {
      DecimalReads(a[i]);
    }
    if Reads(text, a) {
      var f := Fields(text);
      forall i | 0 <= i < 4 ensures f[i] == Decimal(a[i]) {
        OneNumeral(f[i], a[i]);
      }
      assert f == Fields(DottedQuad(a));
      JoinFields(text);
      JoinFields(DottedQuad(a));
    }
  }

  /** The textual form loses nothing: equal dotted quads come from equal addresses. */
  lemma DottedQuadInjective(a: bytes, b: bytes)
    requires |a| == |b| == 4
    requires DottedQuad(a) == DottedQuad(b)
    ensures a == b
  {
    hide Fields, Numeral, Value, DottedQuad;
    DottedQuadReads(DottedQuad(a), a);
    DottedQuadReads(DottedQuad(b), b);
  }
}
