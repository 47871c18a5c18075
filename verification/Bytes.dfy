/** Bytes, C strings and network-order numbers, shared by the modules that model byte streams. */
module Bytes {
  type byte = b: int | 0 <= b < 256
  type bytes = seq<byte>

  datatype Option<+T> = None | Some(value: T)

  datatype Result<+T, +E> = Success(value: T) | Failure(error: E)

  /** A 16-bit number sent high byte first. */
  function Word(hi: byte, lo: byte): nat {
    256 * hi + lo
  }

  /** The two bytes of a 16-bit number, high byte first. */
  function PutWord(n: nat): (w: bytes)
    requires n < 65536
    ensures |w| == 2 && Word(w[0], w[1]) == n
  {
    [n / 256, n % 256]
  }

  /** Index of the first NUL at or after `from`, or |s| when there is none. */
  function FirstNul(s: bytes, from: nat): (i: nat)
    requires from <= |s|
    ensures from <= i <= |s|
    ensures i < |s| ==> s[i] == 0
    ensures forall k :: from <= k < i ==> s[k] != 0
    decreases |s| - from
  {
    if from == |s| || s[from] == 0 then from else FirstNul(s, from + 1)
  }

  /** The search is decided by the first NUL it meets, wherever the buffer ends. */
  lemma FirstNulIs(s: bytes, from: nat, i: nat)
    requires from <= i <= |s|
    requires i < |s| ==> s[i] == 0
    requires forall k :: from <= k < i ==> s[k] != 0
    ensures FirstNul(s, from) == i
    decreases i - from
  {
    if from < i {
      FirstNulIs(s, from + 1, i);
    }
  }

  /** What a C function sees of a buffer: everything before the first NUL. */
  function CString(s: bytes): bytes {
    s[..FirstNul(s, 0)]
  }

  predicate NulFree(s: bytes) {
    forall k :: 0 <= k < |s| ==> s[k] != 0
  }

  /** Decimal digits of a byte, as printed by "%d". */
  function Decimal(b: byte): (d: bytes)
    ensures 1 <= |d| <= 3
    ensures forall k :: 0 <= k < |d| ==> 48 <= d[k] < 58
  {
    if b < 10 then [48 + b]
    else if b < 100 then [48 + b / 10, 48 + b % 10]
    else [48 + b / 100, 48 + b / 10 % 10, 48 + b % 10]
  }

  const DOT: byte := 46

  /** "%d.%d.%d.%d" of a four-byte address. */
  function DottedQuad(a: bytes): (q: bytes)
    requires |a| == 4
    ensures 7 <= |q| <= 15 && NulFree(q)
  {
    Decimal(a[0]) + [DOT] + Decimal(a[1]) + [DOT] + Decimal(a[2]) + [DOT] + Decimal(a[3])
  }
}
