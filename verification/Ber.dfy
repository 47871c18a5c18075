/**
 * BER identifier and length octets (ITU-T X.690, sections 8.1.2 and 8.1.3): ber_write_id_len and
 * ber_read_id_len of IMPORT.C.
 */
module Ber {
  import opened Bytes
  import opened KeyNumbers
  import opened KeyBlobs

  /** The class and constructed bits of the first byte: a multiple of 32. */
  type Flags = f: nat | f < 256 && f % 32 == 0

  // -------------------------------------------------------------------------------------------
  // Writing
  // -------------------------------------------------------------------------------------------

  /** Seven-bit digits with the top bit set on all but the last. */
  function Continued(d: bytes): (c: bytes)
    requires forall k :: 0 <= k < |d| ==> d[k] < 128
    ensures |c| == |d|
    ensures forall k :: 0 <= k < |d| ==> c[k] == if k < |d| - 1 then d[k] + 128 else d[k]
  {
    if |d| <= 1 then d else [d[0] + 128] + Continued(d[1..])
  }

  function Identifier(id: nat, flags: Flags): (i: bytes)
    ensures |i| >= 1
  {
    if id <= 30 then [id + flags] else [31 + flags] + Continued(Digits(id, Seven))
  }

  function Length(length: nat): (l: bytes)
    requires length <= INT_MAX
    ensures |l| >= 1
  {
    if length < 128 then [length] else IntDigits(length); [128 + |Digits(length, Eight)|] + Digits(length, Eight)
  }

  /** The octets in front of the contents. */
  function Header(id: nat, length: nat, flags: Flags): (h: bytes)
    requires length <= INT_MAX
    ensures |h| >= 2
  {
    Identifier(id, flags) + Length(length)
  }

  /** How many digits `x` has, counted by shifting as the source does. */
  method CountDigits(x: nat, w: Width) returns (n: nat)
    ensures n == |Digits(x, w)|
  {
    n := 1;
    ShiftsCountDigits(x, w, 1);
    while Shift(x, w, n) > 0
      invariant 1 <= n <= |Digits(x, w)|
      invariant Shift(x, w, n) > 0 <==> n < |Digits(x, w)|
      decreases |Digits(x, w)| - n
    {
      n := n + 1;
      ShiftsCountDigits(x, w, n);
    }
  }

  /** The loop that writes a number digit by digit, top bit set while more follow if `continued`. */
  method WriteDigits(dest: array?<byte>, off: nat, x: nat, w: Width, continued: bool) returns (len: nat)
    requires continued ==> w == Seven
    requires dest != null ==> off + |Digits(x, w)| <= dest.Length
    modifies if dest == null then {} else {dest}
    ensures len == |Digits(x, w)|
    ensures dest != null ==> Elsewhere(dest, off, off + len)
    ensures dest != null ==> dest[off..off + len] == if continued then Continued(Digits(x, w)) else Digits(x, w)
  {
    hide Digits, Number, Shift;
    var n := CountDigits(x, w);
    ghost var d := Digits(x, w);
    ghost var text := if continued then Continued(d) else d;
    len := 0;
    while n > 0
      invariant 0 <= n && n + len == |d|
      invariant dest != null ==> Elsewhere(dest, off, off + len)
      invariant dest != null ==> forall k :: 0 <= k < len ==> dest[off + k] == text[k]
    {
      n := n - 1;
      ShiftFindsDigit(x, w, n);
      var digit := Remainder(Shift(x, w, n), w);
      if dest != null {
        dest[off + len] := if continued && n > 0 then digit + 128 else digit;
      }
      len := len + 1;
    }
  }

  lemma FirstThenRest(dest: array<byte>, off: nat, len: nat)
    requires 1 <= len && off + len <= dest.Length
    ensures dest[off..off + len] == [dest[off]] + dest[off + 1..off + len]
  {
  }

  method WriteIdentifier(dest: array?<byte>, off: nat, id: nat, flags: Flags) returns (len: nat)
    requires dest != null ==> off + |Identifier(id, flags)| <= dest.Length
    modifies if dest == null then {} else {dest}
    ensures len == |Identifier(id, flags)|
    ensures dest != null ==> Elsewhere(dest, off, off + len)
    ensures dest != null ==> dest[off..off + len] == Identifier(id, flags)
  {
    hide Digits, Number, Continued;
    len := 1;
    if id <= 30 {
      if dest != null { dest[off] := id + flags; }
    } else {
      if dest != null { dest[off] := 31 + flags; }
      var n := WriteDigits(dest, off + len, id, Seven, true);
      len := len + n;
      if dest != null { FirstThenRest(dest, off, len); }
    }
  }

  method WriteLength(dest: array?<byte>, off: nat, length: nat) returns (len: nat)
    requires length <= INT_MAX
    requires dest != null ==> off + |Length(length)| <= dest.Length
    modifies if dest == null then {} else {dest}
    ensures len == |Length(length)|
    ensures dest != null ==> Elsewhere(dest, off, off + len)
    ensures dest != null ==> dest[off..off + len] == Length(length)
  {
    hide Digits, Number;
    len := 1;
    if length < 128 {
      if dest != null { dest[off] := length; }
    } else {
      IntDigits(length);
      var n := CountDigits(length, Eight);
      if dest != null { dest[off] := 128 + n; }
      n := WriteDigits(dest, off + len, length, Eight, false);
      len := len + n;
      if dest != null { FirstThenRest(dest, off, len); }
    }
  }

  /** ber_write_id_len: writes the header, or only measures it when there is nowhere to write. */
  method WriteIdLen(dest: array?<byte>, off: nat, id: nat, length: nat, flags: Flags) returns (len: nat)
    requires length <= INT_MAX
    requires dest != null ==> off + |Header(id, length, flags)| <= dest.Length
    modifies if dest == null then {} else {dest}
    ensures len == |Header(id, length, flags)|
    ensures dest != null ==> Elsewhere(dest, off, off + len)
    ensures dest != null ==> dest[off..off + len] == Header(id, length, flags)
  {
    hide Identifier, Length;
    len := WriteIdentifier(dest, off, id, flags);
    label Identified:
    var n := WriteLength(dest, off + len, length);
    if dest != null {
      assert dest[off..off + len] == old@Identified(dest[off..off + len]);
      assert dest[off..off + len + n] == dest[off..off + len] + dest[off + len..off + len + n];
    }
    len := len + n;
  }

  // -------------------------------------------------------------------------------------------
  // Reading
  // -------------------------------------------------------------------------------------------

  datatype Parsed = Parsed(id: nat, length: nat, flags: nat, used: nat)

  /** From byte `p` of the identifier, with `id` gathered so far: the identifier and where it ends. */
  function ReadId(s: bytes, p: nat, id: nat): (r: Option<(nat, nat)>)
    requires p < |s|
    ensures r.Some? ==> p < r.value.1 <= |s|
    decreases |s| - p
  {
    if s[p] < 128 then Some((id, p + 1))
    else if p + 1 == |s| then None
    else ReadId(s, p + 1, Append(id, s[p + 1] % 128, Seven))
  }

  function ParseIdentifier(s: bytes): (r: Option<(nat, nat)>)
    requires s != []
    ensures r.Some? ==> 1 <= r.value.1 <= |s|
  {
    if s[0] % 32 == 31 then ReadId(s, 0, 0) else Some((s[0] % 32, 1))
  }

  /** The length and how many bytes it takes. */
  function ParseLength(s: bytes): (r: Option<(nat, nat)>)
    ensures r.Some? ==> 1 <= r.value.1 <= |s|
  {
    if s == [] then None
    else if s[0] < 128 then Some((s[0], 1))
    else
      var n := s[0] - 128;
      if |s| - 1 < n then None else Some((Number(s[1..1 + n], Eight), 1 + n))
  }

  /** ber_read_id_len: what is at the head of `s`, or None where the source returns -1. */
  function Parse(s: bytes): (r: Option<Parsed>)
    ensures r.Some? ==> 2 <= r.value.used <= |s|
  {
    if s == [] || ParseIdentifier(s).None? then None
    else
      var (id, p) := ParseIdentifier(s).value;
      var length := ParseLength(s[p..]);
      if length.None? then None
      else Some(Parsed(id, length.value.0, s[0] / 32 * 32, p + length.value.1))
  }

  method ReadIdentifier(source: bytes, at: nat) returns (r: Option<(nat, nat)>)
    requires at < |source|
    ensures r.Some? ==> r.value.1 >= at
    ensures ParseIdentifier(source[at..]) == if r.None? then None else Some((r.value.0, r.value.1 - at))
  {
    ghost var s := source[at..];
    var p := at;
    var id: nat := 0;
    if source[p] % 32 == 31 {
      while source[p] >= 128
        invariant at <= p < |source|
        invariant ReadId(s, 0, 0) == ReadId(s, p - at, id)
        decreases |source| - p
      {
        p := p + 1;
        if p == |source| {
          return None;
        }
        id := Append(id, source[p] % 128, Seven);
      }
    } else {
      id := source[p] % 32;
    }
    return Some((id, p + 1));
  }

  method ReadNumber(source: bytes, at: nat, count: nat) returns (x: nat)
    requires at + count <= |source|
    ensures x == Number(source[at..at + count], Eight)
  {
    x := 0;
    var n := 0;
    while n < count
      invariant 0 <= n <= count && x == Number(source[at..at + n], Eight)
    {
      assert source[at..at + n + 1][..n] == source[at..at + n];
      x := Append(x, source[at + n], Eight);
      n := n + 1;
    }
  }

  /** ber_read_id_len as the source walks it, at position `at` of a buffer. */
  method ReadIdLen(source: bytes, at: nat) returns (r: Option<Parsed>)
    requires at <= |source|
    ensures r == Parse(source[at..])
  {
    hide ParseIdentifier;
    ghost var s := source[at..];
    if at == |source| {
      return None;
    }
    var flags := source[at] / 32 * 32;
    var ident := ReadIdentifier(source, at);
    if ident.None? || ident.value.1 == |source| {
      return None;
    }
    var (id, p) := ident.value;
    assert s[p - at..] == source[p..];
    var length: nat := source[p];
    p := p + 1;
    if length >= 128 {
      var n: nat := length - 128;
      if |source| - p < n {
        return None;
      }
      assert source[p - 1..][1..1 + n] == source[p..p + n];
      length := ReadNumber(source, p, n);
      p := p + n;
    }
    return Some(Parsed(id, length, flags, p - at));
  }

  // -------------------------------------------------------------------------------------------
  // The two agree, but for one kind of tag
  // -------------------------------------------------------------------------------------------

  /** Identifiers above 30 are read back when the first byte has its top bit set. */
  lemma {:induction false} ReadContinued(d: bytes, first: byte, rest: bytes, j: nat)
    requires j <= |d| && d != [] && forall k :: 0 <= k < |d| ==> d[k] < 128
    requires j == 0 ==> first >= 128
    ensures ReadId([first] + Continued(d) + rest, j, Number(d[..j], Seven)) == Some((Number(d, Seven), 1 + |d|))
    decreases |d| - j
  {
    var s := [first] + Continued(d) + rest;
    if j < |d| {
      assert s[j] == (if j == 0 then first else d[j - 1] + 128) && s[j] >= 128;
      assert s[j + 1] == Continued(d)[j] && s[j + 1] % 128 == d[j];
      assert d[..j + 1][..j] == d[..j];
      ReadContinued(d, first, rest, j + 1);
    } else {
      assert s[j] == d[j - 1] && d[..j] == d;
    }
  }

  lemma {:induction false} IdentifierRoundTrip(id: nat, flags: Flags, rest: bytes)
    ensures (Identifier(id, flags) + rest)[0] / 32 * 32 == flags
    ensures ParseIdentifier(Identifier(id, flags) + rest) ==
            Some(if id <= 30 || flags >= 128 then (id, |Identifier(id, flags)|) else (0, 1))
  {
    if id > 30 && flags >= 128 {
      LongIdentifier(id, flags, rest);
    }
    hide Digits, Number;
  }

  lemma LongIdentifier(id: nat, flags: Flags, rest: bytes)
    requires id > 30 && flags >= 128
    ensures ParseIdentifier(Identifier(id, flags) + rest) == Some((id, |Identifier(id, flags)|))
  {
    assert Number([], Seven) == 0;
    hide Digits, Number;
    var d := Digits(id, Seven);
    assert d[..0] == [];
    ReadContinued(d, 31 + flags, rest, 0);
    assert Identifier(id, flags) + rest == [31 + flags] + Continued(d) + rest;
  }

  lemma LengthRoundTrip(length: nat, rest: bytes)
    requires length <= INT_MAX
    ensures ParseLength(Length(length) + rest) == Some((length, |Length(length)|))
  {
    if length >= 128 {
      IntDigits(length);
      var d := Digits(length, Eight);
      assert (Length(length) + rest)[1..1 + |d|] == d;
    }
  }

  /** A header is read back exactly, whatever follows it, if and only if its tag is at most 30 or the
      top bit of its first byte is set. */
  lemma {:induction false} RoundTrip(id: nat, length: nat, flags: Flags, rest: bytes)
    requires length <= INT_MAX
    ensures Parse(Header(id, length, flags) + rest) == Some(Parsed(id, length, flags, |Header(id, length, flags)|))
            <==> id <= 30 || flags >= 128
  {
    hide Parse, ParseIdentifier, ParseLength, Identifier, Length;
    var i, l := Identifier(id, flags), Length(length);
    assert Header(id, length, flags) == i + l;
    assert i + l + rest == i + (l + rest);
    IdentifierRoundTrip(id, flags, l + rest);
    LengthRoundTrip(length, rest);
    HeadThenLength(i, l + rest);
  }

  lemma HeadThenLength(i: bytes, s: bytes)
    requires i != [] && ParseIdentifier(i + s).Some?
    ensures ParseIdentifier(i + s).value.1 == |i| && ParseLength(s).Some? ==>
              Parse(i + s) == Some(Parsed(ParseIdentifier(i + s).value.0, ParseLength(s).value.0,
                                          (i + s)[0] / 32 * 32, |i| + ParseLength(s).value.1))
    ensures Parse(i + s).Some? ==> Parse(i + s).value.id == ParseIdentifier(i + s).value.0
  {
    hide ParseIdentifier, ParseLength;
    assert (i + s)[|i|..] == s;
  }
}
