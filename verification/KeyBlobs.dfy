/**
 * What both private key formats of IMPORT.C work on: a key is its pair of SSH-2 blobs, written and read as
 * counted strings, and the cipher is any pair of inverse functions on whole blocks.
 */
module KeyBlobs {
  import opened Bytes
  import opened KeyNumbers

  datatype Algorithm = Rsa | Dsa

  /** The key blobs as public_blob and private_blob give them and createkey takes them. */
  datatype Blobs = Blobs(pub: bytes, priv: bytes)

  /** "ssh-rsa" or "ssh-dss". */
  function Name(alg: Algorithm): (name: bytes)
    ensures |name| == 7
  {
    if alg.Rsa? then [115, 115, 104, 45, 114, 115, 97] else [115, 115, 104, 45, 100, 115, 115]
  }

  /** Integers after the name in the public blob: e, n for RSA; p, q, g, y for DSA. */
  function PublicCount(alg: Algorithm): nat {
    if alg.Rsa? then 2 else 4
  }

  /** Integers in the private blob: d, p, q, iqmp for RSA; x for DSA. */
  function PrivateCount(alg: Algorithm): nat {
    if alg.Rsa? then 4 else 1
  }

  // -------------------------------------------------------------------------------------------
  // Fetching the integers out of the blobs
  // -------------------------------------------------------------------------------------------

  /** The name and the public integers; the private integers. */
  function PublicRead(alg: Algorithm, key: Blobs): (r: Option<(seq<bytes>, nat)>)
    ensures r.Some? ==> |r.value.0| == 1 + PublicCount(alg)
  {
    Mpints(key.pub, 1 + PublicCount(alg), InBytes)
  }

  function PrivateRead(alg: Algorithm, key: Blobs): (r: Option<(seq<bytes>, nat)>)
    ensures r.Some? ==> |r.value.0| == PrivateCount(alg)
  {
    Mpints(key.priv, PrivateCount(alg), InBytes)
  }

  predicate AllFound(alg: Algorithm, key: Blobs) {
    PublicRead(alg, key).Some? && PrivateRead(alg, key).Some?
  }

  /** The source's own assertion: e and iqmp for RSA, y and x for DSA. */
  predicate SourceAsserts(alg: Algorithm, key: Blobs) {
    Nth(key.pub, if alg.Rsa? then 1 else 4, InBytes).Some? && Nth(key.priv, PrivateCount(alg) - 1, InBytes).Some?
  }

  /** The assertion guarantees every integer for DSA; for RSA it leaves out exactly the modulus. */
  lemma AssertionCovers(alg: Algorithm, key: Blobs)
    ensures AllFound(alg, key) <==> SourceAsserts(alg, key) && (alg.Rsa? ==> Nth(key.pub, 2, InBytes).Some?)
  {
    LastFoundAllFound(key.pub, 1 + PublicCount(alg), InBytes);
    LastFoundAllFound(key.priv, PrivateCount(alg), InBytes);
    hide Nth, Mpints;
  }

  /** A public blob that stops after e passes the RSA assertion without a modulus. PuTTY's own public_blob
      functions never make one. */
  lemma AssertionMissesModulus()
    ensures exists key :: SourceAsserts(Rsa, key) && !AllFound(Rsa, key)
  {
    var pub := [Name(Rsa), [3]];
    var priv: seq<bytes> := [[5], [7], [11], [13]];
    var key := Blobs(Strs(pub), Strs(priv));
    Present(pub, 1);
    Present(priv, 3);
    StopsAfter(pub);
    LastFoundAllFound(key.pub, 3, InBytes);
    hide Mpints, Strs, Nth;
    assert SourceAsserts(Rsa, key) && !AllFound(Rsa, key);
  }

  lemma Present(v: seq<bytes>, j: nat)
    requires |v| == j + 1 && forall k :: 0 <= k < |v| ==> |v[k]| < LIMIT
    ensures Nth(Strs(v), j, InBytes).Some?
  {
    MpintsOfStrs(v, []);
    LastFoundAllFound(Strs(v), j + 1, InBytes);
    hide Mpints, Strs, Nth;
    assert Strs(v) + [] == Strs(v);
  }

  lemma {:induction false} StopsAfter(v: seq<bytes>)
    requires forall k :: 0 <= k < |v| ==> |v[k]| < LIMIT
    ensures Nth(Strs(v), |v|, InBytes).None?
    decreases |v|
  {
    if v != [] {
      MpintOfStr(v[0], Strs(v[1..]));
      StopsAfter(v[1..]);
      hide Mpint, Str;
    }
  }

  /** All integers of a key, public ones first, without the name. */
  function Integers(alg: Algorithm, key: Blobs): (v: seq<bytes>)
    requires AllFound(alg, key)
    ensures |v| == PublicCount(alg) + PrivateCount(alg)
  {
    PublicRead(alg, key).value.0[1..] + PrivateRead(alg, key).value.0
  }

  // -------------------------------------------------------------------------------------------
  // The integers of a key, and the blobs they make
  // -------------------------------------------------------------------------------------------

  /** Integers small enough, all together, for the source's int sizes. */
  predicate Fits(v: seq<bytes>) {
    |v| <= 9 && forall k :: 0 <= k < |v| ==> |v[k]| < 0x400_0000
  }

  /** The blobs made of the integers alone. */
  function Rebuilt(alg: Algorithm, v: seq<bytes>): Blobs
    requires |v| == PublicCount(alg) + PrivateCount(alg)
  {
    Blobs(Strs([Name(alg)] + v[..PublicCount(alg)]), Strs(v[PublicCount(alg)..]))
  }

  /** The name is the algorithm's own and nothing follows the last integer of either blob. */
  predicate Tidy(alg: Algorithm, key: Blobs)
    requires AllFound(alg, key)
  {
    && PublicRead(alg, key).value.0[0] == Name(alg)
    && PublicRead(alg, key).value.1 == |key.pub|
    && PrivateRead(alg, key).value.1 == |key.priv|
  }

  lemma SameIfTidy(alg: Algorithm, key: Blobs)
    requires AllFound(alg, key)
    ensures Rebuilt(alg, Integers(alg, key)) == key <==> Tidy(alg, key)
  {
    hide Strs, Str, Mpint, Mpints;
    var v := Integers(alg, key);
    var (pub, end) := PublicRead(alg, key).value;
    var (priv, last) := PrivateRead(alg, key).value;
    MpintsUncons(key.pub, 1 + PublicCount(alg));
    StrsOfMpints(key.pub, 1 + PublicCount(alg));
    StrsOfMpints(key.priv, PrivateCount(alg));
    assert v[..PublicCount(alg)] == pub[1..] && v[PublicCount(alg)..] == priv;
    StrsCons(Name(alg), pub[1..]);
    MpintOfStr(Name(alg), Strs(pub[1..]));
    if pub[0] == Name(alg) {
      assert pub == [Name(alg)] + pub[1..];
    }
    assert end == |key.pub| ==> key.pub[..end] == key.pub;
    assert last == |key.priv| ==> key.priv[..last] == key.priv;
  }

  /** The integers can be told from the blobs made of them. */
  lemma IntegersOfRebuilt(alg: Algorithm, v: seq<bytes>)
    requires |v| == PublicCount(alg) + PrivateCount(alg)
    requires forall k :: 0 <= k < |v| ==> |v[k]| < LIMIT
    ensures AllFound(alg, Rebuilt(alg, v)) && Integers(alg, Rebuilt(alg, v)) == v
  {
    var n := PublicCount(alg);
    var pub := [Name(alg)] + v[..n];
    MpintsOfStrs(pub, []);
    MpintsOfStrs(v[n..], []);
    hide Mpints, Strs;
    assert Strs(pub) + [] == Strs(pub) && Strs(v[n..]) + [] == Strs(v[n..]);
    assert pub[1..] == v[..n];
  }

  // -------------------------------------------------------------------------------------------
  // Ciphers
  // -------------------------------------------------------------------------------------------

  /** Encryption and decryption with the key derived from one passphrase and one initial vector. */
  datatype Cipher = Cipher(encrypt: bytes -> bytes, decrypt: bytes -> bytes)

  ghost predicate Inverse(c: Cipher) {
    forall b: bytes :: |b| % 8 == 0 ==> |c.encrypt(b)| == |b| && c.decrypt(c.encrypt(b)) == b
  }

  // -------------------------------------------------------------------------------------------
  // Writing into a buffer
  // -------------------------------------------------------------------------------------------

  /** Everything outside dest[from..to] is as it was. */
  twostate predicate Elsewhere(dest: array<byte>, from: nat, to: nat)
    reads dest
  {
    forall k :: 0 <= k < dest.Length && !(from <= k < to) ==> dest[k] == old(dest[k])
  }

  method CopyInto(dest: array<byte>, off: nat, s: bytes)
    requires off + |s| <= dest.Length
    modifies dest
    ensures dest[off..off + |s|] == s
    ensures Elsewhere(dest, off, off + |s|)
  {
    forall k | 0 <= k < |s| {
      dest[off + k] := s[k];
    }
  }

  /** put_string. */
  method PutString(target: array<byte>, off: nat, data: bytes) returns (len: nat)
    requires off + |Str(data)| <= target.Length
    modifies target
    ensures len == |Str(data)|
    ensures target[..off + len] == old(target[..off]) + Str(data)
  {
    CopyInto(target, off, Put32(|data|));
    label Counted:
    CopyInto(target, off + 4, data);
    len := |data| + 4;
    assert target[..off] == old(target[..off]);
    assert target[off..off + 4] == old@Counted(target[off..off + 4]);
    assert target[..off + len] == target[..off] + target[off..off + 4] + target[off + 4..off + len];
  }
}
