/**
 * Private keys in ssh.com form: sshcom_put_mpint, sshcom_read_mpint and the binary halves of sshcom_write and
 * sshcom_read in IMPORT.C.
 */
module SshComKey {
  import opened Bytes
  import opened KeyNumbers
  import opened KeyBlobs

  // -------------------------------------------------------------------------------------------
  // Integers counted in bits
  // -------------------------------------------------------------------------------------------

  /** The integer without leading zero bytes, of which the last byte always stays. */
  function Trimmed(i: bytes): (t: bytes)
    ensures |t| <= |i| && (t == [] <==> i == [])
    ensures |t| > 1 ==> t[0] != 0
    ensures Number(t, Eight) == Number(i, Eight)
    decreases |i|
  {
    if |i| > 1 && i[0] == 0 then
      LeadingZero(i[1..]);
      assert [0] + i[1..] == i;
      Trimmed(i[1..])
    else i
  }

  function Bit(k: nat): (n: nat)
    requires k <= 8
    ensures n > 0
  {
    [1, 2, 4, 8, 16, 32, 64, 128, 256][k]
  }

  /** *i & (1 << k). */
  predicate BitSet(b: byte, k: nat)
    requires k < 8
  {
    b / Bit(k) % 2 == 1
  }

  lemma TopByte()
    ensures Bit(8) == 256
  {
  }

  /** Bits of a byte up to its highest one, at least one. */
  function ByteBits(b: byte): (n: nat)
    ensures 1 <= n <= 8 && b < Bit(n) && (n > 1 ==> b >= Bit(n - 1))
  {
    if b < 2 then 1 else if b < 4 then 2 else if b < 8 then 3 else if b < 16 then 4
    else if b < 32 then 5 else if b < 64 then 6 else if b < 128 then 7 else 8
  }

  function BitCount(t: bytes): (n: nat)
    ensures Size(n, InBits) == |t|
  {
    if t == [] then 0 else 8 * (|t| - 1) + ByteBits(t[0])
  }

  function PutBits(i: bytes): bytes {
    Put32(BitCount(Trimmed(i))) + Trimmed(i)
  }

  function Power(n: nat): (p: nat)
    ensures p > 0
  {
    if n == 0 then 1 else 2 * Power(n - 1)
  }

  /** The count written is the true bit length of every positive integer. */
  lemma {:induction false} BitCountIsLength(t: bytes)
    requires t != [] && t[0] != 0
    ensures Power(BitCount(t) - 1) <= Number(t, Eight) < Power(BitCount(t))
    decreases |t|
  {
    var n := |t| - 1;
    if n == 0 {
      ByteLength(t[0]);
      assert Number([], Eight) == 0 && t[..0] == [];
    } else {
      var b := BitCount(t[..n]);
      BitCountIsLength(t[..n]);
      EightMore(b);
      EightMore(b - 1);
    }
  }

  lemma ByteLength(b: byte)
    requires b > 0
    ensures Power(ByteBits(b) - 1) <= b < Power(ByteBits(b))
  {
    assert Power(1) == 2 && Power(2) == 4 && Power(3) == 8 && Power(4) == 16;
    assert Power(5) == 32 && Power(6) == 64 && Power(7) == 128 && Power(8) == 256;
  }

  lemma EightMore(n: nat)
    ensures Power(n + 8) == 256 * Power(n)
  {
    assert Power(n + 2) == 4 * Power(n);
    assert Power(n + 4) == 4 * Power(n + 2);
    assert Power(n + 6) == 4 * Power(n + 4);
  }

  /** Of a byte below bit k + 1, bit k tells whether k + 1 is its length. */
  lemma TopBit(b: byte, k: nat)
    requires k < 8 && b < Bit(k + 1)
    ensures BitSet(b, k) <==> b >= Bit(k)
    ensures b >= Bit(k) ==> ByteBits(b) == k + 1
    ensures k == 0 && b < Bit(0) ==> b == 0
    ensures b < Bit(1) ==> ByteBits(b) == 1
  {
  }

  lemma TrimOne(d: bytes)
    requires |d| > 1 && d[0] == 0
    ensures Trimmed(d) == Trimmed(d[1..])
  {
  }

  lemma TrimNone(d: bytes)
    requires |d| > 1 ==> d[0] != 0
    ensures Trimmed(d) == d
  {
  }

  /** The search of sshcom_put_mpint for the highest bit: down bit by bit, leaving zero bytes behind. */
  method FindTop(data: bytes) returns (i: bytes, bits: int)
    ensures i == Trimmed(data) && bits + 1 == BitCount(i)
  {
    hide Trimmed, ByteBits, Bit, BitCount, BitSet, Number;
    bits := |data| * 8 - 1;
    i := data;
    TopByte();
    while bits > 0
      invariant Trimmed(i) == Trimmed(data)
      invariant i == [] ==> bits == -1
      invariant i != [] ==> bits / 8 == |i| - 1 && i[0] < Bit(bits % 8 + 1)
      decreases bits
    {
      TopBit(i[0], bits % 8);
      if BitSet(i[0], bits % 8) {
        break;
      }
      if bits % 8 == 0 {
        TrimOne(i);
        i := i[1..];
      }
      bits := bits - 1;
    }
    if i != [] {
      TopBit(i[0], bits % 8);
    }
    TrimNone(i);
    CountIs(i, bits);
  }

  lemma CountIs(i: bytes, bits: int)
    requires if i == [] then bits == -1 else bits >= 0 && bits / 8 == |i| - 1 && ByteBits(i[0]) == bits % 8 + 1
    ensures bits + 1 == BitCount(i)
  {
  }

  /** sshcom_put_mpint. */
  method PutMpint(target: array<byte>, off: nat, data: bytes) returns (len: nat)
    requires off + |PutBits(data)| <= target.Length
    modifies target
    ensures len == |PutBits(data)|
    ensures target[..off + len] == old(target[..off]) + PutBits(data)
  {
    hide Trimmed, Put32, Number;
    var i, bits := FindTop(data);
    CopyInto(target, off, Put32(bits + 1));
    label Counted:
    CopyInto(target, off + 4, i);
    len := |i| + 4;
    Joined(target, off, off + 4, off + len);
    assert target[..off] == old(target[..off]);
    assert target[off..off + 4] == old@Counted(target[off..off + 4]);
  }

  lemma Joined(target: array<byte>, a: nat, b: nat, c: nat)
    requires a <= b <= c <= target.Length
    ensures target[..c] == target[..a] + (target[a..b] + target[b..c])
  {
  }

  function Items(v: seq<bytes>): bytes {
    if v == [] then [] else PutBits(v[0]) + Items(v[1..])
  }

  function TrimAll(v: seq<bytes>): (t: seq<bytes>)
    ensures |t| == |v| && forall k :: 0 <= k < |v| ==> t[k] == Trimmed(v[k])
  {
    if v == [] then [] else [Trimmed(v[0])] + TrimAll(v[1..])
  }

  lemma BitsBack(i: bytes, rest: bytes)
    requires |i| < 0x400_0000
    ensures Mpint(PutBits(i) + rest, InBits) == (Some(Trimmed(i)), |PutBits(i)|)
    ensures (PutBits(i) + rest)[|PutBits(i)|..] == rest
  {
    var t := Trimmed(i);
    var w := Put32(BitCount(t));
    var d := w + (t + rest);
    assert PutBits(i) + rest == d;
    hide Put32, Number, Trimmed, ByteBits;
    assert d[..4] == w && d[4..4 + |t|] == t;
  }

  /** sshcom_read_mpint reads what sshcom_put_mpint wrote. */
  lemma {:induction false} ItemsBack(v: seq<bytes>, rest: bytes)
    requires forall k :: 0 <= k < |v| ==> |v[k]| < 0x400_0000
    ensures Mpints(Items(v) + rest, |v|, InBits) == Some((TrimAll(v), |Items(v)|))
    decreases |v|
  {
    NoItems(rest);
    hide Mpint, PutBits, Trimmed, Mpints, Items, TrimAll;
    if v != [] {
      ItemsBack(v[1..], rest);
      ItemsCons(v, rest);
      BitsBack(v[0], Items(v[1..]) + rest);
      MpintThen(PutBits(v[0]) + (Items(v[1..]) + rest), |v| - 1, InBits);
    }
  }

  lemma NoItems(rest: bytes)
    ensures Items([]) == [] && [] + rest == rest && TrimAll([]) == []
    ensures Mpints(rest, 0, InBits) == Some(([], 0))
  {
  }

  lemma ItemsCons(v: seq<bytes>, rest: bytes)
    requires v != []
    ensures Items(v) + rest == PutBits(v[0]) + (Items(v[1..]) + rest)
    ensures TrimAll(v) == [Trimmed(v[0])] + TrimAll(v[1..])
    ensures |Items(v)| == |PutBits(v[0])| + |Items(v[1..])|
  {
    hide PutBits, Trimmed;
  }

  // -------------------------------------------------------------------------------------------
  // The container
  // -------------------------------------------------------------------------------------------

  const MAGIC := 0x3f6f_f9eb

  function Ascii(s: string): (b: bytes)
    ensures |b| == |s|
    ensures s != "" ==> b[0] == s[0] as int % 256
  {
    seq(|s|, k requires 0 <= k < |s| => s[k] as int % 256)
  }

  /** The start of the key type by which the reader tells the algorithm, and the rest of what is written. */
  function Prefix(alg: Algorithm): (p: bytes)
    ensures |p| == 16
  {
    if alg.Rsa? then Ascii("if-modn{sign{rsa") else Ascii("dl-modp{sign{dsa")
  }

  function Scheme(alg: Algorithm): (t: bytes)
    ensures 16 < |t| <= 55 && Prefix(alg) <= t
  {
    Prefix(alg) + if alg.Rsa? then Ascii("-pkcs1-sha1},encrypt{rsa-pkcs1v2-oaep}}") else Ascii("-nist-sha1},dh{plain}}")
  }

  function CipherName(passphrase: bool): (c: bytes)
    ensures |c| == if passphrase then 8 else 4
  {
    if passphrase then Ascii("3des-cbc") else Ascii("none")
  }

  /** The order of integers in the file: e, d, n, iqmp, q, p for RSA; p, g, q, y, x for DSA. */
  function Order(alg: Algorithm, v: seq<bytes>): (n: seq<bytes>)
    requires |v| == PublicCount(alg) + PrivateCount(alg)
    ensures |n| == |v|
    ensures Fits(v) ==> Fits(n)
  {
    if alg.Rsa? then [v[0], v[2], v[1], v[5], v[4], v[3]] else [v[0], v[2], v[1], v[3], v[4]]
  }

  function Payload(alg: Algorithm, v: seq<bytes>): bytes {
    (if alg.Dsa? then Put32(0) else []) + Items(v)
  }

  /** What is missing to a whole block. */
  function Padding(n: nat): (k: nat)
    ensures k < 8 && (n + k) % 8 == 0
  {
    (8 - n % 8) % 8
  }

  /** The payload with its length in front and, under a passphrase, random bytes up to a whole block. */
  function Wrapped(payload: bytes, passphrase: bool, noise: bytes): (w: bytes)
    requires |noise| == 7
    ensures passphrase ==> |w| % 8 == 0
    ensures 4 + |payload| <= |w| < 12 + |payload|
  {
    LengthOfStr(payload);
    hide Str;
    Str(payload) + if passphrase then noise[..Padding(4 + |payload|)] else []
  }

  /** Everything in front of `size` bytes of key data: magic number, total length, names, and `size`. */
  function Front(alg: Algorithm, passphrase: bool, size: nat): bytes {
    var names := Str(Scheme(alg)) + Str(CipherName(passphrase));
    Put32(MAGIC) + Put32(12 + |names| + size) + names + Put32(size)
  }

  function Container(alg: Algorithm, passphrase: bool, data: bytes): bytes {
    Front(alg, passphrase, |data|) + data
  }

  /** The binary contents of the file that sshcom_write makes of a key. */
  function Export(alg: Algorithm, key: Blobs, passphrase: bool, noise: bytes, c: Cipher): bytes
    requires AllFound(alg, key) && |noise| == 7
  {
    var w := Wrapped(Payload(alg, Order(alg, Integers(alg, key))), passphrase, noise);
    Container(alg, passphrase, if passphrase then c.encrypt(w) else w)
  }

  /** Space for integers as both halves count it. */
  function Room(v: seq<bytes>): nat {
    if v == [] then 0 else 4 + |v[0]| + Room(v[1..])
  }

  lemma {:induction false} ItemsFit(v: seq<bytes>)
    ensures |Items(v)| <= Room(v)
    decreases |v|
  {
    hide Trimmed;
    if v != [] {
      ItemsFit(v[1..]);
    }
  }

  method CountRoom(numbers: seq<bytes>) returns (n: nat)
    ensures n == Room(numbers)
  {
    n := 0;
    var i := 0;
    while i < |numbers|
      invariant 0 <= i <= |numbers| && n + Room(numbers[i..]) == Room(numbers)
    {
      assert numbers[i..][1..] == numbers[i + 1..];
      n := n + 4 + |numbers[i]|;
      i := i + 1;
    }
  }

  method WriteItems(outblob: array<byte>, off: nat, numbers: seq<bytes>) returns (pos: nat)
    requires off + |Items(numbers)| <= outblob.Length
    modifies outblob
    ensures pos == off + |Items(numbers)|
    ensures outblob[..pos] == old(outblob[..off]) + Items(numbers)
  {
    hide PutBits;
    ghost var start := outblob[..off];
    pos := off;
    var i := 0;
    assert numbers[0..] == numbers;
    while i < |numbers|
      invariant 0 <= i <= |numbers| && pos <= pos + |Items(numbers[i..])| == off + |Items(numbers)|
      invariant outblob[..pos] + Items(numbers[i..]) == start + Items(numbers)
    {
      ghost var before := outblob[..pos];
      assert numbers[i..][1..] == numbers[i + 1..];
      var n := PutMpint(outblob, pos, numbers[i]);
      pos := pos + n;
      assert before + PutBits(numbers[i]) + Items(numbers[i + 1..]) == before + Items(numbers[i..]);
      i := i + 1;
    }
  }

  /** Fills in a number for which space was left. */
  method Patch(target: array<byte>, at: nat, n: nat)
    requires at + 4 <= target.Length
    modifies target
    ensures target[at..at + 4] == Put32(n)
    ensures forall a, b :: 0 <= a <= b <= target.Length && (b <= at || at + 4 <= a) ==>
            target[a..b] == old(target[a..b])
  {
    CopyInto(target, at, Put32(n));
  }

  /** Magic number and names, with space for the total length between them. */
  method WriteNames(outblob: array<byte>, alg: Algorithm, passphrase: bool) returns (lenpos: nat)
    requires outblob.Length >= 100
    modifies outblob
    ensures lenpos == 8 + |Str(Scheme(alg)) + Str(CipherName(passphrase))| <= 79
    ensures outblob[0..4] == Put32(MAGIC)
    ensures outblob[8..lenpos] == Str(Scheme(alg)) + Str(CipherName(passphrase))
  {
    hide Scheme, CipherName, Put32;
    Patch(outblob, 0, MAGIC);
    ghost var head := outblob[..8];
    var n := PutString(outblob, 8, Scheme(alg));
    lenpos := 8 + n;
    n := PutString(outblob, lenpos, CipherName(passphrase));
    lenpos := lenpos + n;
    ghost var names := Str(Scheme(alg)) + Str(CipherName(passphrase));
    ghost var all := outblob[..lenpos];
    assert all == head + names;
    assert all[8..] == names && all[..4] == head[..4];
    assert outblob[8..lenpos] == all[8..] && outblob[0..4] == all[..4];
  }

  method WritePayload(outblob: array<byte>, at: nat, alg: Algorithm, numbers: seq<bytes>) returns (pos: nat)
    requires at + |Payload(alg, numbers)| <= outblob.Length
    modifies outblob
    ensures pos == at + |Payload(alg, numbers)|
    ensures outblob[..at] == old(outblob[..at]) && outblob[at..pos] == Payload(alg, numbers)
  {
    hide Items, Put32;
    ghost var before := outblob[..at];
    pos := at;
    if alg.Dsa? {
      Patch(outblob, pos, 0);
      pos := pos + 4;
      assert outblob[..pos] == outblob[0..at] + outblob[at..pos];
    }
    ghost var zero := if alg.Dsa? then Put32(0) else [];
    assert outblob[..pos] == before + zero;
    pos := WriteItems(outblob, pos, numbers);
    ghost var all := outblob[..pos];
    assert all == before + zero + Items(numbers) == before + (zero + Items(numbers));
    assert all[..at] == before && all[at..] == zero + Items(numbers);
  }

  method WriteCounted(outblob: array<byte>, at: nat, alg: Algorithm, numbers: seq<bytes>) returns (pos: nat)
    requires at + 4 + |Payload(alg, numbers)| <= outblob.Length
    modifies outblob
    ensures pos == at + |Str(Payload(alg, numbers))|
    ensures outblob[..at] == old(outblob[..at]) && outblob[at..pos] == Str(Payload(alg, numbers))
  {
    hide Payload, Put32, Number;
    pos := WritePayload(outblob, at + 4, alg, numbers);
    assert outblob[..at] == outblob[..at + 4][..at];
    label Written:
    CopyInto(outblob, at, Put32(pos - (at + 4)));
    assert outblob[..at] == old@Written(outblob[..at]);
    assert outblob[at + 4..pos] == old@Written(outblob[at + 4..pos]);
    assert outblob[at..pos] == outblob[at..at + 4] + outblob[at + 4..pos];
  }

  /** The part to be encrypted: payload length, payload and padding. */
  method WriteWrapped(outblob: array<byte>, at: nat, alg: Algorithm, numbers: seq<bytes>, passphrase: bool,
      noise: bytes)
    returns (pos: nat)
    requires |noise| == 7 && at + 11 + |Payload(alg, numbers)| <= outblob.Length
    modifies outblob
    ensures at <= pos <= outblob.Length && outblob[..at] == old(outblob[..at])
    ensures outblob[at..pos] == Wrapped(Payload(alg, numbers), passphrase, noise)
    ensures pos == at + |Wrapped(Payload(alg, numbers), passphrase, noise)|
  {
    hide Payload, Put32, Number;
    pos := WriteCounted(outblob, at, alg, numbers);
    if passphrase {
      ghost var head := outblob[..pos];
      assert head[..at] == outblob[..at] && head[at..] == outblob[at..pos];
      var count := (8 - (pos - at) % 8) % 8;
      CopyInto(outblob, pos, noise[..count]);
      assert outblob[..pos] == head;
      assert outblob[..at] == head[..at];
      assert outblob[at..pos + count] == head[at..] + outblob[pos..pos + count];
      pos := pos + count;
    }
  }

  /** The two lengths that are known only at the end. */
  method FillLengths(outblob: array<byte>, lenpos: nat, pos: nat, ghost names: bytes, ghost data: bytes)
    requires 8 <= lenpos && lenpos + 4 + |data| == pos <= outblob.Length
    requires outblob[0..4] == Put32(MAGIC) && outblob[8..lenpos] == names && outblob[lenpos + 4..pos] == data
    modifies outblob
    ensures outblob[..pos] == Put32(MAGIC) + Put32(pos) + names + Put32(|data|) + data
  {
    hide Put32;
    Patch(outblob, lenpos, pos - (lenpos + 4));
    Patch(outblob, 4, pos);
    assert outblob[..pos] ==
           outblob[0..4] + outblob[4..8] + outblob[8..lenpos] + outblob[lenpos..lenpos + 4] + outblob[lenpos + 4..pos];
  }

  /** Everything but the lengths known at the end, in the space that the source sets aside. */
  method WriteParts(outblob: array<byte>, alg: Algorithm, numbers: seq<bytes>, passphrase: bool, noise: bytes)
    returns (lenpos: nat, pos: nat)
    requires |noise| == 7 && outblob.Length == 512 + Room(numbers)
    modifies outblob
    ensures lenpos == 8 + |Str(Scheme(alg)) + Str(CipherName(passphrase))|
    ensures pos == lenpos + 4 + |Wrapped(Payload(alg, numbers), passphrase, noise)| < outblob.Length
    ensures outblob[0..4] == Put32(MAGIC)
    ensures outblob[8..lenpos] == Str(Scheme(alg)) + Str(CipherName(passphrase))
    ensures outblob[lenpos + 4..pos] == Wrapped(Payload(alg, numbers), passphrase, noise)
  {
    ItemsFit(numbers);
    assert |Payload(alg, numbers)| <= 4 + Room(numbers);
    hide Payload, Room, Scheme, CipherName, Put32, Wrapped, Str;
    lenpos := WriteNames(outblob, alg, passphrase);
    ghost var head := outblob[..lenpos + 4];
    SlicesOfHead(outblob, lenpos);
    pos := WriteWrapped(outblob, lenpos + 4, alg, numbers, passphrase, noise);
    assert outblob[..lenpos + 4] == head;
    SlicesOfHead(outblob, lenpos);
  }

  /** The container before encryption; `lenpos` is where the length of its encrypted part stands. It always
      ends before the end of the space set aside. */
  method WritePlain(alg: Algorithm, numbers: seq<bytes>, passphrase: bool, noise: bytes)
    returns (outblob: array<byte>, lenpos: nat, pos: nat)
    requires |noise| == 7
    ensures fresh(outblob) && pos < outblob.Length
    ensures pos == lenpos + 4 + |Wrapped(Payload(alg, numbers), passphrase, noise)|
    ensures lenpos + 4 == |Front(alg, passphrase, pos - (lenpos + 4))|
    ensures outblob[..pos] == Container(alg, passphrase, Wrapped(Payload(alg, numbers), passphrase, noise))
  {
    hide Payload, Room, Scheme, CipherName, Put32, Wrapped, Str, Front;
    var outlen := CountRoom(numbers);
    outlen := outlen + 512;
    outblob := new byte[outlen];
    lenpos, pos := WriteParts(outblob, alg, numbers, passphrase, noise);
    ghost var names := Str(Scheme(alg)) + Str(CipherName(passphrase));
    ghost var data := Wrapped(Payload(alg, numbers), passphrase, noise);
    FillLengths(outblob, lenpos, pos, names, data);
    FrontIs(alg, passphrase, |data|);
  }

  lemma SlicesOfHead(s: array<byte>, lenpos: nat)
    requires 8 <= lenpos && lenpos + 4 <= s.Length
    ensures s[0..4] == s[..lenpos + 4][0..4] && s[8..lenpos] == s[..lenpos + 4][8..lenpos]
  {
  }

  lemma FrontIs(alg: Algorithm, passphrase: bool, size: nat)
    ensures var names := Str(Scheme(alg)) + Str(CipherName(passphrase));
      && Front(alg, passphrase, size) == Put32(MAGIC) + Put32(12 + |names| + size) + names + Put32(size)
      && |Front(alg, passphrase, size)| == 12 + |names|
  {
    hide Put32, Str;
  }

  /** sshcom_write up to the base64 layer: the encrypted part is replaced in place. */
  method Write(alg: Algorithm, key: Blobs, passphrase: bool, noise: bytes, c: Cipher) returns (file: bytes)
    requires AllFound(alg, key) && |noise| == 7 && Inverse(c)
    ensures file == Export(alg, key, passphrase, noise, c)
  {
    hide Front, Payload, Integers, Order, Wrapped;
    var numbers := Order(alg, Integers(alg, key));
    ghost var data := Wrapped(Payload(alg, numbers), passphrase, noise);
    var outblob, lenpos, pos := WritePlain(alg, numbers, passphrase, noise);
    if passphrase {
      EncryptTail(outblob, lenpos + 4, pos, c, Front(alg, true, |data|), data);
    }
    file := outblob[..pos];
  }

  method EncryptTail(outblob: array<byte>, from: nat, to: nat, c: Cipher, ghost front: bytes, ghost data: bytes)
    requires from <= to <= outblob.Length && |front| == from
    requires outblob[..to] == front + data
    requires |c.encrypt(data)| == |data|
    modifies outblob
    ensures outblob[..to] == front + c.encrypt(data)
  {
    assert outblob[from..to] == outblob[..to][from..] == data;
    assert outblob[..from] == outblob[..to][..from] == front;
    CopyInto(outblob, from, c.encrypt(outblob[from..to]));
    assert outblob[..from] == front;
    assert outblob[..to] == outblob[..from] + outblob[from..to];
  }

  // -------------------------------------------------------------------------------------------
  // Reading
  // -------------------------------------------------------------------------------------------

  /** Failures after decryption count as a wrong passphrase. */
  datatype Failing = Refused | WrongPassphrase

  /** The blobs that the reader assembles from the integers in file order. */
  function Assemble(alg: Algorithm, v: seq<bytes>): Blobs
    requires |v| == PublicCount(alg) + PrivateCount(alg)
  {
    if alg.Rsa? then
      Blobs(Str(Name(alg)) + Mp(v[0]) + Mp(v[2]), Str(v[1]) + Mp(v[5]) + Mp(v[4]) + Mp(v[3]))
    else
      Blobs(Str(Name(alg)) + Mp(v[0]) + Mp(v[2]) + Mp(v[1]) + Mp(v[3]), Mp(v[4]))
  }

  function ReadPayload(alg: Algorithm, payload: bytes): (r: Option<seq<bytes>>)
    ensures r.Some? ==> |r.value| == PublicCount(alg) + PrivateCount(alg)
  {
    if alg.Dsa? && (|payload| < 4 || Number(payload[..4], Eight) != 0) then None
    else
      var v := Mpints(if alg.Dsa? then payload[4..] else payload, if alg.Rsa? then 6 else 5, InBits);
      if v.None? then None else Some(v.value.0)
  }

  /** The reader's view of the key type. */
  function AlgorithmOf(scheme: bytes): Option<Algorithm> {
    if |scheme| > 16 && Prefix(Rsa) <= scheme then Some(Rsa)
    else if |scheme| > 16 && Prefix(Dsa) <= scheme then Some(Dsa)
    else None
  }

  function Unwrap(alg: Algorithm, data: bytes, encrypted: bool, c: Cipher): Result<(Algorithm, Blobs), Failing> {
    if encrypted && |data| % 8 != 0 then Failure(Refused)
    else
      var failing := if encrypted then WrongPassphrase else Refused;
      var payload := Mpint(if encrypted then c.decrypt(data) else data, InBytes).0;
      if payload.None? then Failure(failing)
      else
        var v := ReadPayload(alg, payload.value);
        if v.None? then Failure(failing) else Success((alg, Assemble(alg, v.value)))
  }

  /** sshcom_read on the decoded file. */
  function Import(keyblob: bytes, c: Cipher): Result<(Algorithm, Blobs), Failing> {
    if |keyblob| < 8 || Number(keyblob[..4], Eight) != MAGIC then Failure(Refused)
    else
      var parts := Mpints(keyblob[8..], 3, InBytes);
      if parts.None? then Failure(Refused)
      else
        var (scheme, cipher, data) := (parts.value.0[0], parts.value.0[1], parts.value.0[2]);
        if AlgorithmOf(scheme).None? then Failure(Refused)
        else if cipher != CipherName(false) && cipher != CipherName(true) then Failure(Refused)
        else if data == [] then Failure(Refused)
        else Unwrap(AlgorithmOf(scheme).value, data, cipher == CipherName(true), c)
  }

  lemma {:induction false} MpintsRoom(d: bytes, k: nat)
    requires Mpints(d, k, InBits).Some?
    ensures Room(Mpints(d, k, InBits).value.0) == Mpints(d, k, InBits).value.1
    decreases k
  {
    if k > 0 {
      hide Mpint;
      var m := Mpint(d, InBits);
      MpintsRoom(d[m.1..], k - 1);
      assert ([m.0.value] + Mpints(d[m.1..], k - 1, InBits).value.0)[1..] == Mpints(d[m.1..], k - 1, InBits).value.0;
    }
  }

  /** put_mp. */
  method PutMp(target: array<byte>, off: nat, data: bytes) returns (len: nat)
    requires off + |data| + 5 <= target.Length
    modifies target
    ensures len == |Mp(data)| <= |data| + 5
    ensures target[..off + len] == old(target[..off]) + Mp(data)
  {
    len := PutString(target, off, if data != [] && data[0] >= 128 then [0] + data else data);
  }

  lemma RoomInFull(alg: Algorithm, v: seq<bytes>)
    requires |v| == PublicCount(alg) + PrivateCount(alg)
    ensures Room(v) == if alg.Rsa? then |v[0]| + |v[1]| + |v[2]| + |v[3]| + |v[4]| + |v[5]| + 24
                                   else |v[0]| + |v[1]| + |v[2]| + |v[3]| + |v[4]| + 20
  {
    assert Room(v[4..]) == 4 + |v[4]| + Room(v[4..][1..]);
    assert alg.Rsa? ==> Room(v[5..]) == 4 + |v[5]| + Room(v[5..][1..]) && v[4..][1..] == v[5..];
    assert v[1..][1..] == v[2..] && v[2..][1..] == v[3..] && v[3..][1..] == v[4..];
    assert Room(v[3..]) == 4 + |v[3]| + Room(v[4..]);
    assert Room(v[2..]) == 4 + |v[2]| + Room(v[3..]);
    assert Room(v[1..]) == 4 + |v[1]| + Room(v[2..]);
  }

  method WritePublic(blob: array<byte>, alg: Algorithm, v: seq<bytes>) returns (publen: nat)
    requires |v| == PublicCount(alg) + PrivateCount(alg) && Room(v) + 40 <= blob.Length
    modifies blob
    ensures publen <= blob.Length && blob[..publen] == Assemble(alg, v).pub
    ensures publen + (if alg.Rsa? then |v[1]| + |v[3]| + |v[4]| + |v[5]| else |v[4]|) + 20 <= blob.Length
  {
    RoomInFull(alg, v);
    LengthOfStr(Name(alg));
    hide Str, Mp, Room, Put32, Number, Name;
    var n := PutString(blob, 0, Name(alg));
    publen := n;
    ghost var written := Str(Name(alg));
    assert blob[..publen] == [] + written == written;
    publen := PutTwo(blob, publen, v[0], v[2], written);
    written := written + Mp(v[0]) + Mp(v[2]);
    if alg.Dsa? {
      publen := PutTwo(blob, publen, v[1], v[3], written);
    }
  }

  /** Two put_mp in a row. */
  method PutTwo(blob: array<byte>, off: nat, a: bytes, b: bytes, ghost written: bytes) returns (pos: nat)
    requires off + |a| + |b| + 10 <= blob.Length && blob[..off] == written
    modifies blob
    ensures pos <= off + |a| + |b| + 10
    ensures blob[..pos] == written + Mp(a) + Mp(b)
  {
    hide Mp;
    var n := PutMp(blob, off, a);
    pos := off + n;
    n := PutMp(blob, pos, b);
    pos := pos + n;
  }

  method WritePrivateRsa(blob: array<byte>, publen: nat, v: seq<bytes>) returns (pos: nat)
    requires |v| == 6 && publen + |v[1]| + |v[3]| + |v[4]| + |v[5]| + 20 <= blob.Length
    modifies blob
    ensures publen <= pos <= blob.Length
    ensures blob[..pos] == old(blob[..publen]) + (Str(v[1]) + Mp(v[5]) + Mp(v[4]) + Mp(v[3]))
  {
    LengthOfStr(v[1]);
    hide Str, Mp, Put32, Number;
    ghost var pub := blob[..publen];
    var n := PutString(blob, publen, v[1]);
    pos := publen + n;
    pos := PutTwo(blob, pos, v[5], v[4], pub + Str(v[1]));
    n := PutMp(blob, pos, v[3]);
    pos := pos + n;
    Regroup(pub, Str(v[1]), Mp(v[5]), Mp(v[4]), Mp(v[3]));
  }

  method WritePrivate(blob: array<byte>, publen: nat, alg: Algorithm, v: seq<bytes>) returns (pos: nat)
    requires |v| == PublicCount(alg) + PrivateCount(alg)
    requires publen + (if alg.Rsa? then |v[1]| + |v[3]| + |v[4]| + |v[5]| else |v[4]|) + 20 <= blob.Length
    modifies blob
    ensures publen <= pos <= blob.Length
    ensures blob[..publen] == old(blob[..publen]) && blob[publen..pos] == Assemble(alg, v).priv
  {
    hide Str, Mp, Put32, Number, Name;
    ghost var pub := blob[..publen];
    if alg.Rsa? {
      pos := WritePrivateRsa(blob, publen, v);
    } else {
      var n := PutMp(blob, publen, v[4]);
      pos := publen + n;
    }
    ghost var all := blob[..pos];
    assert all == pub + Assemble(alg, v).priv;
    assert blob[..publen] == all[..publen] && blob[publen..pos] == all[publen..];
  }

  lemma Regroup(p: bytes, a: bytes, b: bytes, c: bytes, d: bytes)
    ensures p + a + b + c + d == p + (a + b + c + d)
  {
  }

  /** The reads of sshcom_read and the blob it builds, 256 bytes longer than the payload. */
  method ReadIntegers(alg: Algorithm, payload: bytes) returns (r: Option<Blobs>)
    ensures r == if ReadPayload(alg, payload).None? then None else Some(Assemble(alg, ReadPayload(alg, payload).value))
  {
    hide Mpints, Assemble, Room, Number;
    if alg.Dsa? && (|payload| < 4 || Number(payload[..4], Eight) != 0) {
      return None;
    }
    var ints := if alg.Dsa? then payload[4..] else payload;
    var v := Mpints(ints, if alg.Rsa? then 6 else 5, InBits);
    if v.None? {
      return None;
    }
    MpintsRoom(ints, if alg.Rsa? then 6 else 5);
    var blob := new byte[|payload| + 256];
    var publen := WritePublic(blob, alg, v.value.0);
    var pos := WritePrivate(blob, publen, alg, v.value.0);
    return Some(Blobs(blob[..publen], blob[publen..pos]));
  }

  /** sshcom_read, walking through the decoded file. */
  method Read(keyblob: bytes, c: Cipher) returns (r: Result<(Algorithm, Blobs), Failing>)
    ensures r == Import(keyblob, c)
  {
    hide Mpint, Number, ReadPayload, Assemble, CipherName, AlgorithmOf;
    if |keyblob| < 8 || Number(keyblob[..4], Eight) != MAGIC {
      return Failure(Refused);
    }
    var pos := 8;
    var scheme, n := Mpint(keyblob[pos..], InBytes).0, Mpint(keyblob[pos..], InBytes).1;
    ThreeReads(keyblob[8..]);
    if scheme.None? {
      return Failure(Refused);
    }
    var alg := AlgorithmOf(scheme.value);
    if alg.None? {
      return Failure(Refused);
    }
    pos := pos + n;
    assert keyblob[8..][n..] == keyblob[pos..];
    var cipher := Mpint(keyblob[pos..], InBytes);
    if cipher.0.None? || (cipher.0.value != CipherName(false) && cipher.0.value != CipherName(true)) {
      return Failure(Refused);
    }
    var encrypted := cipher.0.value == CipherName(true);
    assert keyblob[pos..][cipher.1..] == keyblob[pos + cipher.1..];
    pos := pos + cipher.1;
    var data := Mpint(keyblob[pos..], InBytes).0;
    if data.None? || data.value == [] || (encrypted && |data.value| % 8 != 0) {
      return Failure(Refused);
    }
    var failing := if encrypted then WrongPassphrase else Refused;
    var payload := Mpint(if encrypted then c.decrypt(data.value) else data.value, InBytes).0;
    if payload.None? {
      return Failure(failing);
    }
    var key := ReadIntegers(alg.value, payload.value);
    if key.None? {
      return Failure(failing);
    }
    return Success((alg.value, key.value));
  }

  lemma ThreeReads(d: bytes)
    ensures var a := Mpint(d, InBytes);
      var b := Mpint(d[a.1..], InBytes);
      var c := Mpint(d[a.1..][b.1..], InBytes);
      if a.0.None? || b.0.None? || c.0.None? then Mpints(d, 3, InBytes).None?
      else Mpints(d, 3, InBytes).Some? && Mpints(d, 3, InBytes).value.0 == [a.0.value, b.0.value, c.0.value]
  {
    hide Mpint;
    var a := Mpint(d, InBytes);
    var b := Mpint(d[a.1..], InBytes);
    var e := d[a.1..][b.1..];
    assert Mpints(e, 1, InBytes).Some? <==> Mpint(e, InBytes).0.Some?;
  }

  // -------------------------------------------------------------------------------------------
  // There and back
  // -------------------------------------------------------------------------------------------

  /** The integer that put_mp writes: never with a set top bit. */
  function Signed(i: bytes): bytes {
    if i != [] && i[0] >= 128 then [0] + i else i
  }

  lemma MpIsSigned(i: bytes)
    ensures Mp(i) == Str(Signed(i))
  {
  }

  /** What becomes of integer `k` of a key. The private exponent of RSA is written by put_string. */
  function Kept(alg: Algorithm, k: nat, i: bytes): (r: bytes)
    ensures Number(r, Eight) == Number(i, Eight)
    ensures |r| <= |i| + 1
  {
    LeadingZero(Trimmed(i));
    if alg.Rsa? && k == 2 then Trimmed(i) else Signed(Trimmed(i))
  }

  function KeptAll(alg: Algorithm, v: seq<bytes>): (w: seq<bytes>)
    ensures |w| == |v| && forall k :: 0 <= k < |v| ==> w[k] == Kept(alg, k, v[k])
  {
    seq(|v|, k requires 0 <= k < |v| => Kept(alg, k, v[k]))
  }

  /** Free of a needless leading zero and not negative: for positive integers the form that RFC 4251,
      section 5, asks for. A zero may have no byte or one. */
  predicate Canonical(i: bytes) {
    (i != [] ==> i[0] < 128) && (|i| > 1 && i[0] == 0 ==> i[1] >= 128)
  }

  /** When integer `k` comes back with its own bytes. The private exponent of RSA, if longer than a byte,
      only has to start with a nonzero one. */
  predicate Unaltered(alg: Algorithm, k: nat, i: bytes) {
    if alg.Rsa? && k == 2 then |i| > 1 ==> i[0] != 0 else Canonical(i)
  }

  lemma KeptAsIs(alg: Algorithm, k: nat, i: bytes)
    ensures Kept(alg, k, i) == i <==> Unaltered(alg, k, i)
  {
    if |i| > 1 && i[0] == 0 {
      var rest := i[1..];
      assert i == [0] + rest;
      TrimOne(i);
      if |rest| > 1 && rest[0] == 0 {
        TrimOne(rest);
      } else {
        TrimNone(rest);
      }
    } else {
      TrimNone(i);
    }
  }

  /** The two exchanges of p and q cancel, and so does the rest of the reordering. */
  lemma AssembledIsRebuilt(alg: Algorithm, v: seq<bytes>)
    requires |v| == PublicCount(alg) + PrivateCount(alg)
    ensures Assemble(alg, TrimAll(Order(alg, v))) == Rebuilt(alg, KeptAll(alg, v))
  {
    var t, w := TrimAll(Order(alg, v)), KeptAll(alg, v);
    hide Str, Mp, Signed, Trimmed, KeptAll, TrimAll;
    RebuiltInFull(alg, w);
    forall k | 0 <= k < |v| ensures Mp(Trimmed(v[k])) == Str(Signed(Trimmed(v[k]))) {
      MpIsSigned(Trimmed(v[k]));
    }
    hide Rebuilt;
  }

  lemma RebuiltInFull(alg: Algorithm, w: seq<bytes>)
    requires |w| == PublicCount(alg) + PrivateCount(alg)
    ensures Rebuilt(alg, w) ==
            if alg.Rsa? then
              Blobs(Str(Name(alg)) + Str(w[0]) + Str(w[1]), Str(w[2]) + Str(w[3]) + Str(w[4]) + Str(w[5]))
            else
              Blobs(Str(Name(alg)) + Str(w[0]) + Str(w[1]) + Str(w[2]) + Str(w[3]), Str(w[4]))
  {
    hide Str, Strs;
    var n := Name(alg);
    if alg.Rsa? {
      assert [n] + w[..2] == [n, w[0], w[1]] && w[2..] == [w[2], w[3], w[4], w[5]];
      ThreeStrs(n, w[0], w[1]);
      FourStrs(w[2], w[3], w[4], w[5]);
    } else {
      assert [n] + w[..4] == [n, w[0], w[1], w[2]] + [w[3]] && w[4..] == [w[4]];
      StrsSnoc([n, w[0], w[1], w[2]], w[3]);
      FourStrs(n, w[0], w[1], w[2]);
      StrsSnoc([], w[4]);
    }
  }

  lemma ThreeStrs(a: bytes, b: bytes, c: bytes)
    ensures Strs([a, b, c]) == Str(a) + Str(b) + Str(c)
  {
    hide Str, Strs;
    StrsSnoc([a, b], c);
    StrsSnoc([a], b);
    StrsSnoc([], a);
    assert [a, b] + [c] == [a, b, c] && [a] + [b] == [a, b];
  }

  lemma FourStrs(a: bytes, b: bytes, c: bytes, d: bytes)
    ensures Strs([a, b, c, d]) == Str(a) + Str(b) + Str(c) + Str(d)
  {
    hide Str, Strs;
    StrsSnoc([a, b, c], d);
    ThreeStrs(a, b, c);
    assert [a, b, c] + [d] == [a, b, c, d];
  }

  lemma PayloadBack(alg: Algorithm, v: seq<bytes>)
    requires |v| == PublicCount(alg) + PrivateCount(alg) && Fits(v)
    ensures ReadPayload(alg, Payload(alg, v)) == Some(TrimAll(v))
  {
    ItemsBack(v, []);
    hide Mpints, Items, TrimAll, Put32, Number;
    var p := Payload(alg, v);
    assert Items(v) + [] == Items(v) == [] + Items(v);
    if alg.Dsa? {
      assert p[..4] == Put32(0) && p[4..] == Items(v);
    }
  }

  lemma {:induction false} ItemsAreShort(v: seq<bytes>)
    requires forall k :: 0 <= k < |v| ==> |v[k]| < 0x400_0000
    ensures |Items(v)| <= 0x400_0004 * |v|
    decreases |v|
  {
    hide Trimmed;
    if v != [] {
      ItemsAreShort(v[1..]);
    }
  }

  lemma Recognised(alg: Algorithm)
    ensures AlgorithmOf(Scheme(alg)) == Some(alg)
    ensures CipherName(true) != CipherName(false)
  {
    var p := Prefix(alg);
    assert Scheme(alg)[..16] == p;
    assert Prefix(Rsa)[0] == 105 && Prefix(Dsa)[0] == 100;
    hide Ascii, Prefix;
    assert Prefix(Rsa) <= Scheme(alg) <==> Prefix(Rsa) == Scheme(alg)[..16];
    assert Prefix(Dsa) <= Scheme(alg) <==> Prefix(Dsa) == Scheme(alg)[..16];
  }

  lemma HeadOfContainer(alg: Algorithm, passphrase: bool, data: bytes)
    ensures var blob := Container(alg, passphrase, data);
      && |blob| >= 8 && Number(blob[..4], Eight) == MAGIC
      && blob[8..] == Strs([Scheme(alg), CipherName(passphrase), data]) + []
  {
    ThreeStrs(Scheme(alg), CipherName(passphrase), data);
    hide Strs, Put32, Number, Scheme, CipherName;
    var names := Str(Scheme(alg)) + Str(CipherName(passphrase));
    var blob := Put32(MAGIC) + (Put32(12 + |names| + |data|) + (names + Str(data)));
    assert Container(alg, passphrase, data) == blob;
    assert blob[..4] == Put32(MAGIC) && blob[8..] == names + Str(data) && names + Str(data) + [] == names + Str(data);
  }

  lemma ContainerBack(alg: Algorithm, passphrase: bool, data: bytes, c: Cipher)
    requires data != [] && |data| < LIMIT
    ensures Import(Container(alg, passphrase, data), c) == Unwrap(alg, data, passphrase, c)
  {
    Recognised(alg);
    MpintsOfStrs([Scheme(alg), CipherName(passphrase), data], []);
    HeadOfContainer(alg, passphrase, data);
    hide Mpints, Strs, Number, Unwrap, AlgorithmOf, Scheme, CipherName, Container;
  }

  /** Any key that the writer accepts, with or without a passphrase and whatever the random padding, is accepted
      by the reader. Every integer returns to its own place with its value; the blobs are the very same if and
      only if they were tidy and every integer was in the form that the writer keeps. */
  lemma WriteThenRead(alg: Algorithm, key: Blobs, passphrase: bool, noise: bytes, c: Cipher)
    requires AllFound(alg, key) && Fits(Integers(alg, key)) && |noise| == 7
    requires Inverse(c)
    ensures var v := Integers(alg, key);
      var w := KeptAll(alg, v);
      && Import(Export(alg, key, passphrase, noise, c), c) == Success((alg, Rebuilt(alg, w)))
      && (forall k :: 0 <= k < |v| ==> Number(w[k], Eight) == Number(v[k], Eight))
      && (Rebuilt(alg, w) == key <==> Tidy(alg, key) && forall k :: 0 <= k < |v| ==> Unaltered(alg, k, v[k]))
  {
    hide Mpints, Import, Unwrap, Container, Rebuilt, KeptAll, Order, Items, Tidy, Unaltered;
    var v := Integers(alg, key);
    Unwrapped(alg, v, passphrase, noise, c);
    var w := Wrapped(Payload(alg, Order(alg, v)), passphrase, noise);
    var data := if passphrase then c.encrypt(w) else w;
    ItemsAreShort(Order(alg, v));
    ContainerBack(alg, passphrase, data, c);
    SameIfUnaltered(alg, key);
  }

  lemma Unwrapped(alg: Algorithm, v: seq<bytes>, passphrase: bool, noise: bytes, c: Cipher)
    requires |v| == PublicCount(alg) + PrivateCount(alg) && Fits(v) && |noise| == 7
    requires Inverse(c)
    ensures var w := Wrapped(Payload(alg, Order(alg, v)), passphrase, noise);
      var data := if passphrase then c.encrypt(w) else w;
      Unwrap(alg, data, passphrase, c) == Success((alg, Rebuilt(alg, KeptAll(alg, v))))
  {
    var payload := Payload(alg, Order(alg, v));
    PayloadBack(alg, Order(alg, v));
    AssembledIsRebuilt(alg, v);
    ItemsAreShort(Order(alg, v));
    WrappedBack(payload, passphrase, noise);
    hide Payload, Assemble, Rebuilt, KeptAll, TrimAll, Order, Mpint, ReadPayload, Wrapped;
  }

  lemma WrappedBack(payload: bytes, passphrase: bool, noise: bytes)
    requires |noise| == 7 && |payload| < LIMIT
    ensures Mpint(Wrapped(payload, passphrase, noise), InBytes).0 == Some(payload)
  {
    MpintOfStr(payload, if passphrase then noise[..Padding(4 + |payload|)] else []);
    hide Str, Mpint;
  }

  lemma SameIfUnaltered(alg: Algorithm, key: Blobs)
    requires AllFound(alg, key) && Fits(Integers(alg, key))
    ensures var v := Integers(alg, key);
      Rebuilt(alg, KeptAll(alg, v)) == key <==> Tidy(alg, key) && forall k :: 0 <= k < |v| ==> Unaltered(alg, k, v[k])
  {
    var v := Integers(alg, key);
    var w := KeptAll(alg, v);
    SameIfTidy(alg, key);
    IntegersOfRebuilt(alg, w);
    forall k | 0 <= k < |v| {
      KeptAsIs(alg, k, v[k]);
    }
    hide Integers, Rebuilt, Kept, KeptAll, Unaltered, Tidy, AllFound;
    assert w == v <==> forall k :: 0 <= k < |v| ==> Unaltered(alg, k, v[k]);
  }

  // -------------------------------------------------------------------------------------------
  // What is in the file
  // -------------------------------------------------------------------------------------------

  /** The text in eight-bit characters. */
  predicate Spells(b: bytes, text: string) {
    |b| == |text| && forall k :: 0 <= k < |b| ==> b[k] == text[k] as int % 256
  }

  function KeyType(alg: Algorithm): string {
    match alg
    case Rsa => "if-modn{sign{rsa" + "-pkcs1-sha1},encrypt{rsa-pkcs1v2-oaep}}"
    case Dsa => "dl-modp{sign{dsa" + "-nist-sha1},dh{plain}}"
  }

  /** The integers of the file without leading zeros, by their places in the public and the private blob:
      e, d, n, iqmp, q, p for RSA; p, g, q, y, x for DSA. The name comes first in the public blob. */
  predicate InFileOrder(alg: Algorithm, key: Blobs, t: seq<bytes>)
    requires AllFound(alg, key)
  {
    var pub, priv := PublicRead(alg, key).value.0, PrivateRead(alg, key).value.0;
    match alg
    case Rsa =>
      && |t| == 6 && t[0] == Trimmed(pub[1]) && t[1] == Trimmed(priv[0]) && t[2] == Trimmed(pub[2])
      && t[3] == Trimmed(priv[3]) && t[4] == Trimmed(priv[2]) && t[5] == Trimmed(priv[1])
    case Dsa =>
      && |t| == 5 && t[0] == Trimmed(pub[1]) && t[1] == Trimmed(pub[3]) && t[2] == Trimmed(pub[2])
      && t[3] == Trimmed(pub[4]) && t[4] == Trimmed(priv[0])
  }

  /** A decrypted payload is these integers, counted in bits, and nothing else; for DSA after a zero word. */
  predicate PayloadHolds(alg: Algorithm, key: Blobs, payload: bytes)
    requires AllFound(alg, key)
  {
    && (alg.Dsa? ==> [0, 0, 0, 0] <= payload)
    && var d := if alg.Dsa? then payload[4..] else payload;
       var r := Mpints(d, if alg.Rsa? then 6 else 5, InBits);
       r.Some? && r.value.1 == |d| && InFileOrder(alg, key, r.value.0)
  }

  /** The file: magic number, its own length, and three strings - the type of the key, the cipher, and the
      encrypted data, in which the payload is counted again. */
  predicate FileHolds(alg: Algorithm, key: Blobs, passphrase: bool, file: bytes, c: Cipher)
    requires AllFound(alg, key)
  {
    && |file| >= 8 && Number(file[..4], Eight) == 0x3f6f_f9eb && Number(file[4..8], Eight) == |file|
    && var parts := Mpints(file[8..], 3, InBytes);
       && parts.Some? && parts.value.1 == |file| - 8
       && Spells(parts.value.0[0], KeyType(alg))
       && Spells(parts.value.0[1], if passphrase then "3des-cbc" else "none")
       && var data := if passphrase then c.decrypt(parts.value.0[2]) else parts.value.0[2];
          && (passphrase ==> |parts.value.0[2]| % 8 == 0)
          && Mpint(data, InBytes).0.Some? && |data| - Mpint(data, InBytes).1 <= (if passphrase then 7 else 0)
          && PayloadHolds(alg, key, Mpint(data, InBytes).0.value)
  }

  lemma AsciiJoins(a: string, b: string)
    ensures Spells(Ascii(a) + Ascii(b), a + b) && Spells(Ascii(a), a)
  {
  }

  lemma NamesSpelt(alg: Algorithm, passphrase: bool)
    ensures Spells(Scheme(alg), KeyType(alg))
    ensures Spells(CipherName(passphrase), if passphrase then "3des-cbc" else "none")
  {
    hide Ascii, Spells;
    AsciiJoins("if-modn{sign{rsa", "-pkcs1-sha1},encrypt{rsa-pkcs1v2-oaep}}");
    AsciiJoins("dl-modp{sign{dsa", "-nist-sha1},dh{plain}}");
    AsciiJoins("3des-cbc", "none");
    AsciiJoins("none", "");
  }

  lemma OrderHolds(alg: Algorithm, key: Blobs)
    requires AllFound(alg, key)
    ensures InFileOrder(alg, key, TrimAll(Order(alg, Integers(alg, key))))
  {
    hide PublicRead, PrivateRead, Trimmed, TrimAll;
  }

  lemma PayloadIs(alg: Algorithm, key: Blobs, payload: bytes, d: bytes, t: seq<bytes>)
    requires AllFound(alg, key) && InFileOrder(alg, key, t)
    requires payload == if alg.Dsa? then [0, 0, 0, 0] + d else d
    requires Mpints(d, if alg.Rsa? then 6 else 5, InBits) == Some((t, |d|))
    ensures PayloadHolds(alg, key, payload)
  {
    hide AllFound, Mpints, InFileOrder;
    if alg.Dsa? {
      assert payload[4..] == d;
    }
  }

  lemma WholePayload(alg: Algorithm, key: Blobs)
    requires AllFound(alg, key) && Fits(Integers(alg, key))
    ensures PayloadHolds(alg, key, Payload(alg, Order(alg, Integers(alg, key))))
  {
    OrderHolds(alg, key);
    ZeroWord();
    hide AllFound, TrimAll, InFileOrder, Integers, Mpints, Items, Put32, PayloadHolds, Order;
    var v := Order(alg, Integers(alg, key));
    ItemsBack(v, []);
    assert Items(v) + [] == Items(v) == [] + Items(v);
    PayloadIs(alg, key, Payload(alg, v), Items(v), TrimAll(v));
  }

  lemma ZeroWord()
    ensures Put32(0) == [0, 0, 0, 0]
  {
  }

  lemma HeadWords(magic: bytes, size: bytes, names: bytes, count: bytes, data: bytes)
    requires |magic| == |size| == |count| == 4
    ensures var blob := magic + size + names + count + data;
      |blob| == 12 + |names| + |data| && blob[4..8] == size
  {
  }

  lemma NamesAreShort(alg: Algorithm, passphrase: bool)
    ensures |Str(Scheme(alg)) + Str(CipherName(passphrase))| < 0x100
  {
    hide Scheme, CipherName, Put32;
  }

  lemma LengthInHead(alg: Algorithm, passphrase: bool, data: bytes)
    requires |data| < LIMIT - 0x1000
    ensures var blob := Container(alg, passphrase, data);
      |blob| >= 8 && Number(blob[4..8], Eight) == |blob|
  {
    var names := Str(Scheme(alg)) + Str(CipherName(passphrase));
    hide Put32, Number, Scheme, CipherName, Str;
    NamesAreShort(alg, passphrase);
    HeadWords(Put32(MAGIC), Put32(12 + |names| + |data|), names, Put32(|data|), data);
  }

  /** The payload and its padding, as the file holds them under its count. */
  lemma WrappedHolds(payload: bytes, passphrase: bool, noise: bytes)
    requires |payload| < LIMIT && |noise| == 7
    ensures var w := Wrapped(payload, passphrase, noise);
      && Mpint(w, InBytes) == (Some(payload), 4 + |payload|)
      && |w| <= 4 + |payload| + (if passphrase then 7 else 0)
  {
    var pad := if passphrase then noise[..Padding(4 + |payload|)] else [];
    MpintOfStr(payload, pad);
    hide Mpint, Number, Put32;
  }

  lemma PayloadIsShort(alg: Algorithm, key: Blobs)
    requires AllFound(alg, key) && Fits(Integers(alg, key))
    ensures |Payload(alg, Order(alg, Integers(alg, key)))| < 0x8000_0000
  {
    hide Integers, AllFound, Items;
    ItemsAreShort(Order(alg, Integers(alg, key)));
  }

  lemma FileIs(alg: Algorithm, key: Blobs, passphrase: bool, file: bytes, c: Cipher, parts: seq<bytes>, payload: bytes)
    requires AllFound(alg, key) && PayloadHolds(alg, key, payload)
    requires |file| >= 8 && Number(file[..4], Eight) == MAGIC && Number(file[4..8], Eight) == |file|
    requires Mpints(file[8..], 3, InBytes) == Some((parts, |file| - 8)) && |parts| == 3
    requires Spells(parts[0], KeyType(alg)) && Spells(parts[1], if passphrase then "3des-cbc" else "none")
    requires passphrase ==> |parts[2]| % 8 == 0
    requires var data := if passphrase then c.decrypt(parts[2]) else parts[2];
             && Mpint(data, InBytes) == (Some(payload), 4 + |payload|)
             && |data| <= 4 + |payload| + (if passphrase then 7 else 0)
    ensures FileHolds(alg, key, passphrase, file, c)
  {
    hide AllFound, PayloadHolds, Number, Mpint, Mpints, Spells, KeyType;
  }

  lemma ContainerHolds(alg: Algorithm, key: Blobs, passphrase: bool, data: bytes, payload: bytes, c: Cipher)
    requires AllFound(alg, key) && PayloadHolds(alg, key, payload)
    requires |data| < LIMIT - 0x1000 && (passphrase ==> |data| % 8 == 0)
    requires var w := if passphrase then c.decrypt(data) else data;
             && Mpint(w, InBytes) == (Some(payload), 4 + |payload|)
             && |w| <= 4 + |payload| + (if passphrase then 7 else 0)
    ensures FileHolds(alg, key, passphrase, Container(alg, passphrase, data), c)
  {
    NamesSpelt(alg, passphrase);
    hide PayloadHolds, FileHolds, Spells, KeyType, Mpint, Mpints, Number, AllFound, Scheme, CipherName, Container, Strs;
    HeadOfContainer(alg, passphrase, data);
    LengthInHead(alg, passphrase, data);
    var file := Container(alg, passphrase, data);
    var parts := [Scheme(alg), CipherName(passphrase), data];
    MpintsOfStrs(parts, []);
    WholeRest(parts, file);
    FileIs(alg, key, passphrase, file, c, parts, payload);
  }

  lemma WholeRest(parts: seq<bytes>, file: bytes)
    requires |file| >= 8 && file[8..] == Strs(parts) + []
    ensures |Strs(parts)| == |file| - 8
  {
    hide Strs;
  }

  /** What the writer leaves in the file. */
  lemma FileContents(alg: Algorithm, key: Blobs, passphrase: bool, noise: bytes, c: Cipher)
    requires AllFound(alg, key) && Fits(Integers(alg, key)) && |noise| == 7
    requires Inverse(c)
    ensures FileHolds(alg, key, passphrase, Export(alg, key, passphrase, noise, c), c)
  {
    WholePayload(alg, key);
    PayloadIsShort(alg, key);
    hide Integers, Order, Payload, PayloadHolds, FileHolds, Mpint, AllFound, Fits, Container, Wrapped;
    var payload := Payload(alg, Order(alg, Integers(alg, key)));
    WrappedHolds(payload, passphrase, noise);
    var w := Wrapped(payload, passphrase, noise);
    ContainerHolds(alg, key, passphrase, if passphrase then c.encrypt(w) else w, payload, c);
  }

  // -------------------------------------------------------------------------------------------
  // What is accepted
  // -------------------------------------------------------------------------------------------

  predicate StartsWith(b: bytes, text: string) {
    |b| > |text| && Spells(b[..|text|], text)
  }

  /** The algorithm's integers can be read from the payload; for DSA there is a zero word first. */
  predicate Readable(alg: Algorithm, payload: bytes) {
    && (alg.Dsa? ==> |payload| >= 4 && Number(payload[..4], Eight) == 0)
    && Mpints(if alg.Dsa? then payload[4..] else payload, if alg.Rsa? then 6 else 5, InBits).Some?
  }

  /** What the reader asks of a file, by the texts themselves. */
  predicate Acceptable(file: bytes, c: Cipher) {
    && |file| >= 8 && Number(file[..4], Eight) == 0x3f6f_f9eb
    && Mpints(file[8..], 3, InBytes).Some?
    && var parts := Mpints(file[8..], 3, InBytes).value.0;
       var rsa := StartsWith(parts[0], "if-modn{sign{rsa");
       var encrypted := Spells(parts[1], "3des-cbc");
       && (rsa || StartsWith(parts[0], "dl-modp{sign{dsa")) && (encrypted || Spells(parts[1], "none"))
       && parts[2] != [] && (encrypted ==> |parts[2]| % 8 == 0)
       && var payload := Mpint(if encrypted then c.decrypt(parts[2]) else parts[2], InBytes).0;
          payload.Some? && Readable(if rsa then Rsa else Dsa, payload.value)
  }

  lemma SpeltIs(b: bytes, text: string)
    ensures Spells(b, text) <==> b == Ascii(text)
  {
  }

  lemma SchemeTold(scheme: bytes)
    ensures AlgorithmOf(scheme) == Some(Rsa) <==> StartsWith(scheme, "if-modn{sign{rsa")
    ensures AlgorithmOf(scheme) == Some(Dsa) <==>
              StartsWith(scheme, "dl-modp{sign{dsa") && !StartsWith(scheme, "if-modn{sign{rsa")
  {
    hide Ascii, Spells;
    if |scheme| > 16 {
      SpeltIs(scheme[..16], "if-modn{sign{rsa");
      SpeltIs(scheme[..16], "dl-modp{sign{dsa");
      assert Prefix(Rsa) <= scheme <==> Prefix(Rsa) == scheme[..16];
      assert Prefix(Dsa) <= scheme <==> Prefix(Dsa) == scheme[..16];
    }
  }

  lemma ReadableTold(alg: Algorithm, payload: bytes)
    ensures ReadPayload(alg, payload).Some? <==> Readable(alg, payload)
  {
    hide Mpints, Number;
  }

  /** Exactly the acceptable files are read. */
  lemma AcceptedExactly(file: bytes, c: Cipher)
    ensures Import(file, c).Success? <==> Acceptable(file, c)
  {
    hide Number, Mpint, Mpints, ReadPayload, Readable, AlgorithmOf, StartsWith, Spells, Ascii, Assemble;
    var parts := Mpints(file[if |file| < 8 then |file| else 8..], 3, InBytes);
    if |file| >= 8 && parts.Some? {
      var (scheme, cipher, data) := (parts.value.0[0], parts.value.0[1], parts.value.0[2]);
      SchemeTold(scheme);
      SpeltIs(cipher, "3des-cbc");
      SpeltIs(cipher, "none");
      var encrypted := Spells(cipher, "3des-cbc");
      var payload := Mpint(if encrypted then c.decrypt(data) else data, InBytes).0;
      if payload.Some? {
        ReadableTold(if StartsWith(scheme, "if-modn{sign{rsa") then Rsa else Dsa, payload.value);
      }
    }
  }
}
