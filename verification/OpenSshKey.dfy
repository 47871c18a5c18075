/**
 * Private keys in OpenSSH form: the binary halves of openssh_write and openssh_read in IMPORT.C.
 * A key is its pair of SSH-2 blobs; the cipher is any pair of inverse functions on whole blocks.
 */
module OpenSshKey {
  import opened Bytes
  import opened KeyNumbers
  import opened Ber
  import opened KeyBlobs

  // -------------------------------------------------------------------------------------------
  // Writing
  // -------------------------------------------------------------------------------------------

  /** The order of integers in the file. `crt` are the two CRT exponents of RSA. */
  function Numbers(alg: Algorithm, v: seq<bytes>, crt: (bytes, bytes)): (n: seq<bytes>)
    requires |v| == PublicCount(alg) + PrivateCount(alg)
    ensures |n| == if alg.Rsa? then 9 else 6
  {
    if alg.Rsa? then [[0], v[1], v[0], v[2], v[3], v[4], crt.0, crt.1, v[5]] else [[0]] + v
  }

  const SEQUENCE := 16
  const INTEGER := 2
  const CONSTRUCTED: Flags := 32

  function Item(i: bytes): bytes
    requires |i| <= INT_MAX
  {
    Header(INTEGER, |i|, 0) + i
  }

  function Body(v: seq<bytes>): (b: bytes)
    requires forall k :: 0 <= k < |v| ==> |v[k]| < 0x400_0000
    ensures |b| <= 0x400_0008 * |v|
  {
    if v == [] then [] else
      assert |Header(INTEGER, |v[0]|, 0)| <= 8 by { IntDigits(|v[0]|); }
      Item(v[0]) + Body(v[1..])
  }

  function Sequence(v: seq<bytes>): (s: bytes)
    requires Fits(v)
  {
    Header(SEQUENCE, |Body(v)|, CONSTRUCTED) + Body(v)
  }

  function Repeat(b: byte, n: nat): (s: bytes)
    ensures |s| == n && forall k :: 0 <= k < n ==> s[k] == b
  {
    if n == 0 then [] else [b] + Repeat(b, n - 1)
  }

  /** With a passphrase: 1 to 8 bytes of padding, each holding the number of them. */
  function Padded(s: bytes, passphrase: bool): (t: bytes)
    ensures passphrase ==> |t| % 8 == 0 && |s| < |t| <= |s| + 8
  {
    if passphrase then s + Repeat(8 - |s| % 8, 8 - |s| % 8) else s
  }

  /** The sizing pass. */
  method MeasureBody(numbers: seq<bytes>) returns (len: nat)
    requires Fits(numbers)
    ensures len == |Body(numbers)|
  {
    len := 0;
    var i := 0;
    while i < |numbers|
      invariant 0 <= i <= |numbers|
      invariant len + |Body(numbers[i..])| == |Body(numbers)|
    {
      assert numbers[i..][1..] == numbers[i + 1..];
      var n := WriteIdLen(null, 0, INTEGER, |numbers[i]|, 0);
      len := len + n + |numbers[i]|;
      i := i + 1;
    }
  }

  /** The writing pass, and the padding: exactly fills the space that the sizing pass asked for. */
  method WriteBlob(numbers: seq<bytes>, passphrase: bool) returns (outblob: array<byte>)
    requires Fits(numbers)
    ensures fresh(outblob)
    ensures outblob[..] == Padded(Sequence(numbers), passphrase)
  {
    hide Header, Padded, Item, Repeat;
    ghost var all := Sequence(numbers);
    var seqlen := MeasureBody(numbers);
    var len := WriteIdLen(null, 0, SEQUENCE, seqlen, CONSTRUCTED);
    len := seqlen + len;
    var outlen := len;
    if passphrase {
      outlen := (outlen + 8) / 8 * 8;
    }
    outblob := new byte[outlen];
    var pos := WriteIdLen(outblob, 0, SEQUENCE, seqlen, CONSTRUCTED);
    var i := 0;
    assert numbers[0..] == numbers;
    while i < |numbers|
      invariant 0 <= i <= |numbers| && pos + |Body(numbers[i..])| == len <= outlen
      invariant 0 <= pos <= outblob.Length
      invariant outblob[..pos] + Body(numbers[i..]) == all
    {
      assert numbers[i..][1..] == numbers[i + 1..];
      WriteItem(outblob, pos, numbers[i], Body(numbers[i + 1..]));
      pos := pos + |Item(numbers[i])|;
      i := i + 1;
    }
    assert pos == len;
    assert outblob[..len] == all;
    PadOut(outblob, len);
    PaddedIs(all, passphrase, outblob[..]);
  }

  method PadOut(outblob: array<byte>, len: nat)
    requires len <= outblob.Length <= len + 8
    modifies outblob
    ensures outblob[..len] == old(outblob[..len])
    ensures forall k :: len <= k < outblob.Length ==> outblob[k] == outblob.Length - len
  {
    var pos := len;
    while pos < outblob.Length
      invariant len <= pos <= outblob.Length
      invariant outblob[..len] == old(outblob[..len])
      invariant forall k :: len <= k < pos ==> outblob[k] == outblob.Length - len
    {
      outblob[pos] := outblob.Length - len;
      pos := pos + 1;
    }
  }

  /** One header and one integer, in front of what is still to come. */
  method WriteItem(outblob: array<byte>, pos: nat, i: bytes, ghost later: bytes)
    requires |i| <= INT_MAX && pos + |Item(i)| <= outblob.Length
    modifies outblob
    ensures outblob[..pos + |Item(i)|] + later == old(outblob[..pos]) + (Item(i) + later)
  {
    hide Header;
    var n := WriteIdLen(outblob, pos, INTEGER, |i|, 0);
    label Headed:
    assert outblob[..pos] == old(outblob[..pos]);
    CopyInto(outblob, pos + n, i);
    assert outblob[..pos] == old(outblob[..pos]);
    assert outblob[pos..pos + n] == old@Headed(outblob[pos..pos + n]);
    assert outblob[..pos + n + |i|] == outblob[..pos] + outblob[pos..pos + n] + outblob[pos + n..pos + n + |i|];
  }

  lemma PaddedIs(s: bytes, passphrase: bool, t: bytes)
    requires |t| == if passphrase then (|s| + 8) / 8 * 8 else |s|
    requires t[..|s|] == s
    requires forall k :: |s| <= k < |t| ==> t[k] == |t| - |s|
    ensures t == Padded(s, passphrase)
  {
    assert t == s + t[|s|..];
    if passphrase {
      assert |t| - |s| == 8 - |s| % 8;
    }
  }

  /** What the padding is for: the last byte tells how many bytes to drop. */
  lemma PaddingComesOff(s: bytes)
    ensures var t := Padded(s, true);
      var n := t[|t| - 1];
      0 < n <= 8 && t[..|t| - n as int] == s && forall k :: |t| - n as int <= k < |t| ==> t[k] == n
  {
    var n: byte := 8 - |s| % 8;
    var t := Padded(s, true);
    assert t == s + Repeat(n, n);
    assert t[|t| - 1] == Repeat(n, n)[n as int - 1];
  }

  // -------------------------------------------------------------------------------------------
  // Reading
  // -------------------------------------------------------------------------------------------

  datatype Failing = WrongPassphrase | VersionMismatch

  /** One INTEGER at the head of `s`, and how many bytes it takes there. */
  function TakeInteger(s: bytes): (r: Option<(bytes, nat)>)
    ensures r.Some? ==> |r.value.0| + 2 <= r.value.1 <= |s|
  {
    var h := Parse(s);
    if h.None? || h.value.id != INTEGER || |s| - h.value.used < h.value.length then None
    else Some((s[h.value.used..h.value.used + h.value.length], h.value.used + h.value.length))
  }

  function TakeIntegers(s: bytes, k: nat): (r: Option<seq<bytes>>)
    ensures r.Some? ==> |r.value| == k && forall j :: 0 <= j < k ==> |r.value[j]| <= |s|
    decreases k
  {
    if k == 0 then Some([])
    else
      var i := TakeInteger(s);
      if i.None? then None
      else
        var later := TakeIntegers(s[i.value.1..], k - 1);
        if later.None? then None else Some([i.value.0] + later.value)
  }

  /** The blobs built from the integers after the version number, as far as they are known. */
  function PublicPart(alg: Algorithm, v: seq<bytes>): bytes
  {
    Str(Name(alg)) +
    if alg.Dsa? then Strs(v[..if |v| < 4 then |v| else 4])
    else if |v| < 2 then [] else Str(v[1]) + Str(v[0])
  }

  function PrivatePart(alg: Algorithm, v: seq<bytes>): bytes
  {
    if alg.Dsa? then (if |v| < 5 then [] else Str(v[4]))
    else if |v| < 3 then []
    else Strs(v[2..if |v| < 5 then |v| else 5]) + if |v| < 8 then [] else Str(v[7])
  }

  /** The reader on a decrypted key. */
  function Import(alg: Algorithm, keyblob: bytes): Result<Blobs, Failing>
    requires |keyblob| <= INT_MAX
  {
    var h := Parse(keyblob);
    if h.None? || h.value.id != SEQUENCE then Failure(WrongPassphrase)
    else
      var s := keyblob[h.value.used..];
      var version := TakeInteger(s);
      if version.None? then Failure(WrongPassphrase)
      else if version.value.0 != [0] then Failure(VersionMismatch)
      else
        var v := TakeIntegers(s[version.value.1..], if alg.Rsa? then 8 else 5);
        if v.None? then Failure(WrongPassphrase)
        else Success(Blobs(PublicPart(alg, v.value), PrivatePart(alg, v.value)))
  }

  /** Everything built so far, the public part first. */
  function Built(alg: Algorithm, v: seq<bytes>): bytes
  {
    PublicPart(alg, v) + PrivatePart(alg, v)
  }

  /** What one more integer adds: nothing for the modulus, the modulus after e, nothing for the CRT exponents. */
  function Added(alg: Algorithm, v: seq<bytes>, number: bytes): bytes
    requires |v| < 8
  {
    if alg.Dsa? then Str(number)
    else if |v| == 1 then Str(number) + Str(v[0])
    else if |v| == 0 || |v| == 5 || |v| == 6 then []
    else Str(number)
  }

  lemma BuiltGrows(alg: Algorithm, v: seq<bytes>, number: bytes)
    requires |v| < (if alg.Rsa? then 8 else 5)
    ensures Built(alg, v + [number]) == Built(alg, v) + Added(alg, v, number)
    ensures |v| >= PublicCount(alg) ==> PublicPart(alg, v + [number]) == PublicPart(alg, v)
    ensures |v| + 1 == PublicCount(alg) ==> PublicPart(alg, v + [number]) == Built(alg, v + [number])
  {
    if alg.Dsa? {
      DsaGrows(v, number);
    } else {
      RsaGrows(v, number);
    }
  }

  lemma DsaGrows(v: seq<bytes>, number: bytes)
    requires |v| < 5
    ensures Built(Dsa, v + [number]) == Built(Dsa, v) + Str(number)
    ensures |v| >= 4 ==> PublicPart(Dsa, v + [number]) == PublicPart(Dsa, v)
    ensures |v| < 4 ==> PublicPart(Dsa, v + [number]) == Built(Dsa, v + [number])
  {
    hide Strs, Str, Name;
    var w, n, name := v + [number], |v|, Str(Name(Dsa));
    if n < 4 {
      StrsSnoc(v, number);
      assert v[..n] == v && w[..n + 1] == w;
      assert name + (Strs(v) + Str(number)) == name + Strs(v) + [] + Str(number);
    } else {
      assert w[..4] == v[..4];
    }
  }

  lemma RsaGrows(v: seq<bytes>, number: bytes)
    requires |v| < 8
    ensures Built(Rsa, v + [number]) == Built(Rsa, v) + Added(Rsa, v, number)
    ensures |v| >= 2 ==> PublicPart(Rsa, v + [number]) == PublicPart(Rsa, v)
    ensures |v| == 1 ==> PublicPart(Rsa, v + [number]) == Built(Rsa, v + [number])
  {
    StrsEmpty();
    hide Strs, Str, Name;
    var w, n := v + [number], |v|;
    if 2 <= n < 5 {
      assert PrivatePart(Rsa, w) == PrivatePart(Rsa, v) + Str(number) by {
        StrsSnoc(v[2..n], number);
        assert v[2..n] + [number] == w[2..n + 1];
      }
    } else if n >= 5 {
      assert PrivatePart(Rsa, w) == PrivatePart(Rsa, v) + Added(Rsa, v, number) by {
        assert w[2..5] == v[2..5];
      }
    }
    hide PrivatePart;
    assert n >= 2 ==> PublicPart(Rsa, w) == PublicPart(Rsa, v);
  }

  lemma StrsEmpty()
    ensures Strs([]) == []
  {
  }

  /** The strings that integer `i` of the file, counting the version number as 0, adds to the blob. */
  method Place(alg: Algorithm, i: nat, number: bytes, modulus: bytes, blob: array<byte>, ptr: nat, ghost v: seq<bytes>)
    returns (blobptr: nat)
    requires i == |v| + 1 && 1 <= i < 9
    requires alg.Rsa? && i == 2 ==> modulus == v[0]
    requires ptr + |Added(alg, v, number)| <= blob.Length
    modifies blob
    ensures blobptr == ptr + |Added(alg, v, number)|
    ensures blob[..blobptr] == old(blob[..ptr]) + Added(alg, v, number)
  {
    hide Str, Name, Number, Put32;
    blobptr := ptr;
    if alg.Dsa? || (i != 1 && i != 6 && i != 7) {
      var n := PutString(blob, blobptr, number);
      blobptr := blobptr + n;
      if alg.Rsa? && i == 2 {
        n := PutString(blob, blobptr, modulus);
        blobptr := blobptr + n;
        assert old(blob[..ptr]) + Str(number) + Str(modulus) == old(blob[..ptr]) + (Str(number) + Str(modulus));
      }
    }
  }

  function Prepend(v: seq<bytes>, later: Option<seq<bytes>>): Option<seq<bytes>> {
    if later.None? then None else Some(v + later.value)
  }

  method ReadInteger(keyblob: bytes, p: nat) returns (r: Option<(bytes, nat)>)
    requires p <= |keyblob|
    ensures r == TakeInteger(keyblob[p..])
  {
    hide Parse;
    var h := ReadIdLen(keyblob, p);
    if h.None? || h.value.id != INTEGER || |keyblob| - (p + h.value.used) < h.value.length {
      return None;
    }
    var q := p + h.value.used;
    assert keyblob[p..][h.value.used..h.value.used + h.value.length] == keyblob[q..q + h.value.length];
    return Some((keyblob[q..q + h.value.length], h.value.used + h.value.length));
  }

  lemma TakeNext(v: seq<bytes>, s: bytes, k: nat)
    requires k > 0
    ensures TakeInteger(s).None? ==> Prepend(v, TakeIntegers(s, k)) == None
    ensures TakeInteger(s).Some? ==>
      Prepend(v, TakeIntegers(s, k)) ==
      Prepend(v + [TakeInteger(s).value.0], TakeIntegers(s[TakeInteger(s).value.1..], k - 1))
  {
    hide TakeInteger;
    if TakeInteger(s).Some? {
      var (i, n) := TakeInteger(s).value;
      var later := TakeIntegers(s[n..], k - 1);
      if later.Some? {
        assert v + ([i] + later.value) == v + [i] + later.value;
      }
    }
  }

  lemma NoneLeft(v: seq<bytes>, s: bytes)
    ensures Prepend(v, TakeIntegers(s, 0)) == Some(v)
  {
    assert v + [] == v;
  }

  lemma StartOfTake(s: bytes, k: nat)
    ensures Prepend([], TakeIntegers(s, k)) == TakeIntegers(s, k)
  {
    hide TakeInteger, TakeIntegers;
    var t := TakeIntegers(s, k);
    assert t.Some? ==> [] + t.value == t.value;
  }

  lemma BuiltSplits(alg: Algorithm, v: seq<bytes>)
    ensures var n := |PublicPart(alg, v)|;
      n <= |Built(alg, v)| && Built(alg, v)[..n] == PublicPart(alg, v) && Built(alg, v)[n..] == PrivatePart(alg, v)
  {
    hide PublicPart, PrivatePart;
  }

  lemma AddedFits(alg: Algorithm, v: seq<bytes>, number: bytes)
    requires |v| < 8
    ensures |Added(alg, v, number)| + (if alg.Rsa? && |v| == 0 then 4 + |number| else 0) <=
            4 + |number| + (if alg.Rsa? && |v| == 1 then 4 + |v[0]| else 0)
  {
  }

  lemma NameIsBuilt(alg: Algorithm)
    ensures Built(alg, []) == Str(Name(alg)) && |Str(Name(alg))| == 11
  {
  }

  /** The loop of openssh_read over the integers after the version number. Every write is within the array,
      256 bytes longer than the input. */
  method ReadNumbers(alg: Algorithm, keyblob: bytes, first: nat, blob: array<byte>)
    returns (ok: bool, blobptr: nat, privptr: nat, ghost v: seq<bytes>)
    requires first <= |keyblob| < LIMIT && blob.Length == 256 + |keyblob|
    requires blob[..11] == Built(alg, [])
    modifies blob
    ensures ok == TakeIntegers(keyblob[first..], if alg.Rsa? then 8 else 5).Some?
    ensures ok ==> Some(v) == TakeIntegers(keyblob[first..], if alg.Rsa? then 8 else 5)
    ensures ok ==> blobptr <= blob.Length && blob[..blobptr] == Built(alg, v) && privptr == |PublicPart(alg, v)|
  {
    hide TakeInteger, TakeIntegers, Built, PublicPart, Added, Str;
    var count := if alg.Rsa? then 9 else 6;
    var p := first;
    var modulus: bytes := [];
    v := [];
    ok, blobptr, privptr := true, 11, 0;
    StartOfTake(keyblob[first..], count - 1);
    var i := 1;
    while i < count
      invariant 1 <= i <= count && |v| == i - 1 && first <= p <= |keyblob|
      invariant TakeIntegers(keyblob[first..], count - 1) == Prepend(v, TakeIntegers(keyblob[p..], count - i))
      invariant alg.Rsa? && i == 2 ==> modulus == v[0]
      invariant blobptr <= blob.Length && blob[..blobptr] == Built(alg, v)
      invariant i > PublicCount(alg) ==> privptr == |PublicPart(alg, v)|
      invariant blobptr + (if alg.Rsa? && i == 2 then 4 + |v[0]| else 0) <= 11 + 2 * i + p
    {
      var number := ReadInteger(keyblob, p);
      TakeNext(v, keyblob[p..], count - i);
      if number.None? {
        ok := false;
        return;
      }
      var n := number.value.0;
      assert keyblob[p..][number.value.1..] == keyblob[p + number.value.1..];
      AddedFits(alg, v, n);
      BuiltGrows(alg, v, n);
      if alg.Rsa? && i == 1 {
        modulus := n;
      }
      blobptr := Place(alg, i, n, modulus, blob, blobptr, v);
      if i == PublicCount(alg) {
        privptr := blobptr;
      }
      v := v + [n];
      p := p + number.value.1;
      i := i + 1;
    }
    NoneLeft(v, keyblob[p..]);
  }

  /** openssh_read after decryption; the first round of its loop, which checks the version, stands apart. */
  method Read(alg: Algorithm, keyblob: bytes) returns (r: Result<Blobs, Failing>)
    requires |keyblob| + 256 <= INT_MAX
    ensures r == Import(alg, keyblob)
  {
    hide Parse, TakeInteger, TakeIntegers, Built, PublicPart, PrivatePart, Str;
    var h := ReadIdLen(keyblob, 0);
    assert keyblob[0..] == keyblob;
    if h.None? || h.value.id != SEQUENCE {
      return Failure(WrongPassphrase);
    }
    var blob := new byte[256 + |keyblob|];
    NameIsBuilt(alg);
    CopyInto(blob, 0, Str(Name(alg)));
    assert blob[..11] == blob[0..11];
    var p := h.value.used;
    var version := ReadInteger(keyblob, p);
    if version.None? {
      return Failure(WrongPassphrase);
    }
    if version.value.0 != [0] {
      return Failure(VersionMismatch);
    }
    assert keyblob[p..][version.value.1..] == keyblob[p + version.value.1..];
    var ok, blobptr, privptr, v := ReadNumbers(alg, keyblob, p + version.value.1, blob);
    if !ok {
      return Failure(WrongPassphrase);
    }
    BuiltSplits(alg, v);
    assert blob[..privptr] == blob[..blobptr][..privptr] && blob[privptr..blobptr] == blob[..blobptr][privptr..];
    return Success(Blobs(blob[..privptr], blob[privptr..blobptr]));
  }

  // -------------------------------------------------------------------------------------------
  // There and back
  // -------------------------------------------------------------------------------------------

  lemma {:induction false} IntegersBack(v: seq<bytes>, rest: bytes)
    requires forall k :: 0 <= k < |v| ==> |v[k]| < 0x400_0000
    ensures TakeIntegers(Body(v) + rest, |v|) == Some(v)
    decreases |v|
  {
    hide Item, TakeInteger;
    if v != [] {
      IntegersBack(v[1..], rest);
      IntegerBack(v[0], Body(v[1..]) + rest);
      BodyCons(v, rest);
      TakeCons(Item(v[0]), v[0], Body(v[1..]) + rest, |v| - 1);
      assert [v[0]] + v[1..] == v;
    }
  }

  lemma BodyCons(v: seq<bytes>, rest: bytes)
    requires v != [] && forall k :: 0 <= k < |v| ==> |v[k]| < 0x400_0000
    ensures Body(v) + rest == Item(v[0]) + (Body(v[1..]) + rest)
  {
    hide Item;
  }

  lemma TakeCons(item: bytes, i: bytes, later: bytes, k: nat)
    requires TakeInteger(item + later) == Some((i, |item|))
    ensures var w := TakeIntegers(later, k);
      TakeIntegers(item + later, k + 1) == if w.None? then None else Some([i] + w.value)
  {
    hide TakeInteger;
    assert (item + later)[|item|..] == later;
  }

  lemma IntegerBack(i: bytes, rest: bytes)
    requires |i| <= INT_MAX
    ensures TakeInteger(Item(i) + rest) == Some((i, |Item(i)|))
  {
    hide Header, Parse, TakeInteger;
    RoundTrip(INTEGER, |i|, 0, i + rest);
    TakeIs(Header(INTEGER, |i|, 0), i, rest);
  }

  lemma TakeIs(h: bytes, i: bytes, rest: bytes)
    requires Parse(h + (i + rest)) == Some(Parsed(INTEGER, |i|, 0, |h|))
    ensures TakeInteger(h + i + rest) == Some((i, |h + i|))
  {
    hide Parse;
    assert h + i + rest == h + (i + rest);
    assert (h + i + rest)[|h|..|h| + |i|] == i;
  }

  /** The reader undoes the writer's order of integers and drops the CRT exponents. */
  lemma PartsAreRebuilt(alg: Algorithm, v: seq<bytes>, crt: (bytes, bytes))
    requires |v| == PublicCount(alg) + PrivateCount(alg)
    requires Fits(Numbers(alg, v, crt))
    ensures forall k :: 0 <= k < |v| ==> |v[k]| < 0x400_0000
    ensures var w := Numbers(alg, v, crt)[1..];
      Blobs(PublicPart(alg, w), PrivatePart(alg, w)) == Rebuilt(alg, v)
  {
    var n := Numbers(alg, v, crt);
    var w := n[1..];
    var name := Name(alg);
    forall k | 0 <= k < |v| ensures |v[k]| < 0x400_0000 {
      assert v[k] in n;
    }
    var pub := [name] + v[..PublicCount(alg)];
    assert pub[0] == name && pub[1..] == v[..PublicCount(alg)];
    if alg.Dsa? {
      assert w == v && w[..4] == v[..4];
      assert v[4..] == [v[4]];
      StrsSnoc([], v[4]);
    } else {
      assert v[..2] == [v[0]] + [v[1]];
      assert v[2..] == w[2..5] + [w[7]];
      StrsSnoc([v[0]], v[1]);
      StrsSnoc(w[2..5], w[7]);
      StrsSnoc([], v[0]);
    }
  }

  /** The binary contents of the file that openssh_write makes of a key. */
  function Export(alg: Algorithm, key: Blobs, crt: (bytes, bytes), passphrase: bool, c: Cipher): bytes
    requires AllFound(alg, key) && Fits(Numbers(alg, Integers(alg, key), crt))
  {
    var blob := Padded(Sequence(Numbers(alg, Integers(alg, key), crt)), passphrase);
    if passphrase then c.encrypt(blob) else blob
  }

  /** openssh_write up to the base64 layer. */
  method Write(alg: Algorithm, key: Blobs, crt: (bytes, bytes), passphrase: bool, c: Cipher) returns (file: bytes)
    requires AllFound(alg, key) && Fits(Numbers(alg, Integers(alg, key), crt))
    ensures file == Export(alg, key, crt, passphrase, c)
  {
    var outblob := WriteBlob(Numbers(alg, Integers(alg, key), crt), passphrase);
    file := outblob[..];
    if passphrase {
      file := c.encrypt(file);
    }
  }

  /** Any key that the writer accepts, with or without a passphrase, is accepted by the reader, which
      returns its integers, each in its own place and byte for byte; these are the very same blobs if
      and only if the original ones were tidy. */
  lemma WriteThenRead(alg: Algorithm, key: Blobs, crt: (bytes, bytes), passphrase: bool, c: Cipher)
    requires AllFound(alg, key) && Fits(Numbers(alg, Integers(alg, key), crt))
    requires Inverse(c)
    ensures var v := Integers(alg, key);
      var file := Export(alg, key, crt, passphrase, c);
      var plain := if passphrase then c.decrypt(file) else file;
      && file != [] && (passphrase ==> |file| % 8 == 0)
      && |plain| <= INT_MAX
      && Import(alg, plain) == Success(Rebuilt(alg, v))
      && (Rebuilt(alg, v) == key <==> Tidy(alg, key))
  {
    var v := Integers(alg, key);
    var n := Numbers(alg, v, crt);
    var blob := Padded(Sequence(n), passphrase);
    var rest := blob[|Sequence(n)|..];
    assert blob == Sequence(n) + rest;
    PartsAreRebuilt(alg, v, crt);
    ReadsSequence(alg, n, rest);
    SameIfTidy(alg, key);
  }

  lemma ReadsSequence(alg: Algorithm, n: seq<bytes>, rest: bytes)
    requires |n| == (if alg.Rsa? then 9 else 6) && n[0] == [0]
    requires Fits(n) && |rest| <= 8
    ensures |Sequence(n) + rest| <= INT_MAX
    ensures Import(alg, Sequence(n) + rest) == Success(Blobs(PublicPart(alg, n[1..]), PrivatePart(alg, n[1..])))
  {
    hide Header, Parse, TakeInteger, TakeIntegers, Item, Body, PublicPart, PrivatePart, Import;
    var b, later := Body(n), Body(n[1..]) + rest;
    var h := Header(SEQUENCE, |b|, CONSTRUCTED);
    RoundTrip(SEQUENCE, |b|, CONSTRUCTED, b + rest);
    IntegerBack([0], later);
    IntegersBack(n[1..], rest);
    BodyCons(n, rest);
    ShortHeader(SEQUENCE, |b|, CONSTRUCTED);
    assert Sequence(n) + rest == h + (b + rest);
    ImportIs(alg, h, Item([0]), later, n[1..]);
  }

  lemma ShortHeader(id: nat, length: nat, flags: Flags)
    requires id <= 30 && length <= INT_MAX
    ensures |Header(id, length, flags)| <= 6
  {
    IntDigits(length);
  }

  /** The three stages of the reader in a row. */
  lemma ImportIs(alg: Algorithm, header: bytes, item: bytes, later: bytes, w: seq<bytes>)
    requires |header + (item + later)| <= INT_MAX
    requires Parse(header + (item + later)).Some?
    requires var h := Parse(header + (item + later)).value; h.id == SEQUENCE && h.used == |header|
    requires TakeInteger(item + later) == Some(([0], |item|))
    requires TakeIntegers(later, if alg.Rsa? then 8 else 5) == Some(w)
    ensures Import(alg, header + (item + later)) == Success(Blobs(PublicPart(alg, w), PrivatePart(alg, w)))
  {
    hide Parse, TakeInteger, TakeIntegers, PublicPart, PrivatePart;
    assert (header + (item + later))[|header|..] == item + later;
    assert (item + later)[|item|..] == later;
  }

  // -------------------------------------------------------------------------------------------
  // What is in the file
  // -------------------------------------------------------------------------------------------

  /** The integers of the file, by their places in the public and the private blob: 0, n, e, d, p, q, dmp1,
      dmq1, iqmp for RSA; 0, p, q, g, y, x for DSA. The name comes first in the public blob. */
  predicate InFileOrder(alg: Algorithm, key: Blobs, crt: (bytes, bytes), t: seq<bytes>)
    requires AllFound(alg, key)
  {
    var pub, priv := PublicRead(alg, key).value.0, PrivateRead(alg, key).value.0;
    match alg
    case Rsa =>
      && |t| == 9 && t[0] == [0] && t[1] == pub[2] && t[2] == pub[1]
      && t[3] == priv[0] && t[4] == priv[1] && t[5] == priv[2] && t[6] == crt.0 && t[7] == crt.1 && t[8] == priv[3]
    case Dsa =>
      && |t| == 6 && t[0] == [0] && t[1] == pub[1] && t[2] == pub[2] && t[3] == pub[3] && t[4] == pub[4]
      && t[5] == priv[0]
  }

  /** A decrypted file is a constructed SEQUENCE (X.690, sections 8.1 and 8.9) of these INTEGERs and nothing
      else; under a passphrase at most eight bytes of padding follow it. */
  predicate HoldsKey(alg: Algorithm, key: Blobs, crt: (bytes, bytes), passphrase: bool, plain: bytes)
    requires AllFound(alg, key)
  {
    var h := Parse(plain);
    && h.Some? && h.value.id == 16 && h.value.flags == 32
    && var end := h.value.used + h.value.length;
       && end <= |plain| <= end + (if passphrase then 8 else 0)
       && var count := if alg.Rsa? then 9 else 6;
          var s := plain[h.value.used..end];
          && TakeIntegers(s, count).Some? && InFileOrder(alg, key, crt, TakeIntegers(s, count).value)
          && TakeIntegers(s, count + 1).None?
  }

  lemma {:induction false} NoMoreIntegers(v: seq<bytes>)
    requires forall k :: 0 <= k < |v| ==> |v[k]| < 0x400_0000
    ensures TakeIntegers(Body(v), |v| + 1).None?
    decreases |v|
  {
    hide Item, TakeInteger;
    if v == [] {
      NothingToTake();
    } else {
      NoMoreIntegers(v[1..]);
      IntegerBack(v[0], Body(v[1..]));
      TakeCons(Item(v[0]), v[0], Body(v[1..]), |v|);
    }
  }

  lemma NothingToTake()
    ensures TakeInteger([]).None?
  {
  }

  lemma NumbersInOrder(alg: Algorithm, key: Blobs, crt: (bytes, bytes))
    requires AllFound(alg, key)
    ensures var n := Numbers(alg, Integers(alg, key), crt);
      InFileOrder(alg, key, crt, n) && |n| == if alg.Rsa? then 9 else 6
  {
    hide PublicRead, PrivateRead;
  }

  lemma HoldsIs(alg: Algorithm, key: Blobs, crt: (bytes, bytes), passphrase: bool, plain: bytes, used: nat, b: bytes,
                n: seq<bytes>)
    requires AllFound(alg, key) && InFileOrder(alg, key, crt, n)
    requires Parse(plain) == Some(Parsed(SEQUENCE, |b|, CONSTRUCTED, used))
    requires used + |b| <= |plain| <= used + |b| + (if passphrase then 8 else 0)
    requires plain[used..used + |b|] == b
    requires TakeIntegers(b, if alg.Rsa? then 9 else 6) == Some(n)
    requires TakeIntegers(b, if alg.Rsa? then 10 else 7).None?
    ensures HoldsKey(alg, key, crt, passphrase, plain)
  {
    hide Parse, TakeIntegers, InFileOrder, AllFound, PublicRead, PrivateRead;
  }

  lemma Inside(h: bytes, b: bytes, rest: bytes)
    ensures (h + (b + rest))[|h|..|h| + |b|] == b
  {
  }

  lemma SequenceHolds(alg: Algorithm, key: Blobs, crt: (bytes, bytes), passphrase: bool, rest: bytes)
    requires AllFound(alg, key) && Fits(Numbers(alg, Integers(alg, key), crt))
    requires |rest| <= if passphrase then 8 else 0
    ensures HoldsKey(alg, key, crt, passphrase, Sequence(Numbers(alg, Integers(alg, key), crt)) + rest)
  {
    NumbersInOrder(alg, key, crt);
    hide Header, Parse, TakeIntegers, Body, Item, Numbers, InFileOrder, Integers, HoldsKey;
    var n := Numbers(alg, Integers(alg, key), crt);
    var b := Body(n);
    var h := Header(SEQUENCE, |b|, CONSTRUCTED);
    assert Sequence(n) + rest == h + (b + rest);
    RoundTrip(SEQUENCE, |b|, CONSTRUCTED, b + rest);
    IntegersBack(n, []);
    assert b + [] == b;
    NoMoreIntegers(n);
    Inside(h, b, rest);
    HoldsIs(alg, key, crt, passphrase, h + (b + rest), |h|, b, n);
  }

  /** What the writer leaves in the file, decrypted. */
  lemma FileContents(alg: Algorithm, key: Blobs, crt: (bytes, bytes), passphrase: bool, c: Cipher)
    requires AllFound(alg, key) && Fits(Numbers(alg, Integers(alg, key), crt))
    requires Inverse(c)
    ensures var file := Export(alg, key, crt, passphrase, c);
      HoldsKey(alg, key, crt, passphrase, if passphrase then c.decrypt(file) else file)
  {
    hide Sequence, HoldsKey, Numbers;
    var all := Sequence(Numbers(alg, Integers(alg, key), crt));
    var blob := Padded(all, passphrase);
    assert blob == all + blob[|all|..];
    SequenceHolds(alg, key, crt, passphrase, blob[|all|..]);
  }

  /** The blobs made of the integers of a file, by their places. */
  function FromFileOrder(alg: Algorithm, t: seq<bytes>): Blobs
    requires |t| == if alg.Rsa? then 9 else 6
  {
    match alg
    case Rsa => Blobs(Strs([Name(alg), t[2], t[1]]), Strs([t[3], t[4], t[5], t[8]]))
    case Dsa => Blobs(Strs([Name(alg), t[1], t[2], t[3], t[4]]), Strs([t[5]]))
  }

  lemma TakeOneMore(s: bytes, k: nat)
    ensures var i := TakeInteger(s);
      TakeIntegers(s, k + 1) ==
        if i.None? then None else
        var later := TakeIntegers(s[i.value.1..], k);
        if later.None? then None else Some([i.value.0] + later.value)
  {
  }

  lemma PartsByPlace(alg: Algorithm, first: bytes, v: seq<bytes>)
    requires |v| == if alg.Rsa? then 8 else 5
    ensures Blobs(PublicPart(alg, v), PrivatePart(alg, v)) == FromFileOrder(alg, [first] + v)
  {
    hide Str, Strs, Name;
    StrsEmpty();
    var n, t := Name(alg), [first] + v;
    StrsSnoc([], n);
    if alg.Dsa? {
      var w := v[..4];
      assert [n, t[1], t[2], t[3], t[4]] == [n] + w;
      StrsCons(n, w);
      StrsSnoc([], v[4]);
    } else {
      StrsCons(n, [t[2], t[1]]);
      assert [n, t[2], t[1]] == [n] + [t[2], t[1]];
      StrsCons(t[2], [t[1]]);
      assert [t[2], t[1]] == [t[2]] + [t[1]];
      StrsSnoc([], t[1]);
      StrsSnoc(v[2..5], v[7]);
      assert v[2..5] + [v[7]] == [t[3], t[4], t[5], t[8]];
    }
  }

  /** Exactly what the reader accepts, and what it makes of it: a SEQUENCE that begins with the number of
      INTEGERs the algorithm has, the first of them 0. */
  lemma ReadExactly(alg: Algorithm, keyblob: bytes)
    requires |keyblob| <= INT_MAX
    ensures var h := Parse(keyblob);
      var count := if alg.Rsa? then 9 else 6;
      if h.Some? && h.value.id == 16 && TakeIntegers(keyblob[h.value.used..], count).Some?
         && TakeIntegers(keyblob[h.value.used..], count).value[0] == [0]
      then Import(alg, keyblob) == Success(FromFileOrder(alg, TakeIntegers(keyblob[h.value.used..], count).value))
      else Import(alg, keyblob).Failure?
  {
    hide Parse, TakeInteger, TakeIntegers, PublicPart, PrivatePart, FromFileOrder;
    var h := Parse(keyblob);
    if h.Some? {
      var s := keyblob[h.value.used..];
      TakeOneMore(s, if alg.Rsa? then 8 else 5);
      var i := TakeInteger(s);
      if i.Some? {
        var v := TakeIntegers(s[i.value.1..], if alg.Rsa? then 8 else 5);
        if v.Some? {
          PartsByPlace(alg, i.value.0, v.value);
        }
      }
    }
  }
}
