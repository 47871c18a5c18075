/**
 * Lists of strings in one setting: the escape loops for Environment and PortForwardings in SETTINGS.C.
 * In memory a list is its strings, each with a NUL, and one more NUL; stored, it is one string with commas.
 * A pointer into a string is the rest of that string.
 */
module Settings {
  import opened Bytes

  const COMMA: byte := ',' as int
  const EQUALS: byte := '=' as int
  const BACKSLASH: byte := '\\' as int
  const TAB: byte := '\t' as int

  /** Strings that a list can hold: not empty, for an empty one would end the list. */
  predicate Items(v: seq<bytes>) {
    forall k :: 0 <= k < |v| ==> v[k] != [] && NulFree(v[k])
  }

  /** The list in memory, without the last NUL. */
  function Flat(v: seq<bytes>): bytes {
    if v == [] then [] else v[0] + [0] + Flat(v[1..])
  }

  // -------------------------------------------------------------------------------------------
  // Saving
  // -------------------------------------------------------------------------------------------

  function EscapeByte(c: byte): (e: bytes)
    ensures 1 <= |e| <= 2
  {
    if c == EQUALS || c == COMMA || c == BACKSLASH then [BACKSLASH, c]
    else if c == TAB then [EQUALS]
    else [c]
  }

  function Escape(s: bytes): (e: bytes)
    ensures |s| <= |e| <= 2 * |s|
  {
    if s == [] then [] else EscapeByte(s[0]) + Escape(s[1..])
  }

  /** The stored form: at most twice as long as the list, as the source's buffer allows for. */
  function Stored(v: seq<bytes>): (t: bytes)
    ensures |t| <= 2 * |Flat(v)|
  {
    if v == [] then [] else Escape(v[0]) + [COMMA] + Stored(v[1..])
  }

  method PutByte(buf: array<byte>, p: nat, c: byte)
    requires p < buf.Length
    modifies buf
    ensures buf[..p + 1] == old(buf[..p]) + [c]
  {
    ghost var done := buf[..p];
    buf[p] := c;
    assert buf[..p] == done;
    assert buf[..p + 1] == buf[..p] + [c];
  }

  /** The inner loop that saves: one string, up to its NUL. */
  method SaveItem(q0: bytes, buf: array<byte>, p0: nat, ghost s: bytes, ghost later: bytes) returns (q: bytes, p: nat)
    requires q0 == s + ([0] + later) && NulFree(s)
    requires p0 + 2 * |s| <= buf.Length
    modifies buf
    ensures q == [0] + later && p == p0 + |Escape(s)|
    ensures buf[..p] == old(buf[..p0]) + Escape(s)
  {
    hide EscapeByte;
    p, q := p0, q0;
    ghost var t, done := s, buf[..p0];
    while q[0] != 0
      invariant q == t + ([0] + later) && NulFree(t)
      invariant p + |Escape(t)| == p0 + |Escape(s)| && p + 2 * |t| <= buf.Length
      invariant buf[..p] + Escape(t) == done + Escape(s)
      decreases |t|
    {
      ghost var before := buf[..p];
      NextByte(t, later);
      p := SaveByte(buf, p, q[0]);
      assert buf[..p] + Escape(t[1..]) == before + Escape(t);
      q, t := q[1..], t[1..];
    }
    AtNul(t, later);
  }

  method SaveByte(buf: array<byte>, p0: nat, c: byte) returns (p: nat)
    requires p0 + 2 <= buf.Length
    modifies buf
    ensures p == p0 + |EscapeByte(c)| && buf[..p] == old(buf[..p0]) + EscapeByte(c)
  {
    p := p0;
    if c == EQUALS || c == COMMA || c == BACKSLASH {
      PutByte(buf, p, BACKSLASH);
      p := p + 1;
    }
    PutByte(buf, p, if c == TAB then EQUALS else c);
    p := p + 1;
  }

  lemma {:induction false} NextByte(t: bytes, later: bytes)
    requires NulFree(t) && (t + ([0] + later))[0] != 0
    ensures t != [] && (t + ([0] + later))[0] == t[0] && (t + ([0] + later))[1..] == t[1..] + ([0] + later)
    ensures NulFree(t[1..])
  {
  }

  lemma {:induction false} AtNul(t: bytes, later: bytes)
    requires NulFree(t) && (t + ([0] + later))[0] == 0
    ensures t == [] && t + ([0] + later) == [0] + later && ([0] + later)[1..] == later
  {
  }

  /** The outer loop that saves, into a buffer twice the size of the list's own. */
  method Save(env: bytes, size: nat, ghost v: seq<bytes>) returns (buf: array<byte>, len: nat)
    requires Items(v) && env == Flat(v) + [0] && |env| <= size
    ensures fresh(buf) && len < buf.Length == 2 * size && buf[..len + 1] == Stored(v) + [0]
  {
    NoMore([]);
    hide Escape, Flat, Stored, Items;
    buf := new byte[2 * size];
    var q, p := env, 0;
    ghost var rest := v;
    assert buf[..0] == [] && [] + Stored(v) == Stored(v);
    while q[0] != 0
      invariant Items(rest) && q == Flat(rest) + [0]
      invariant 0 <= p <= p + 2 * |Flat(rest)| < buf.Length
      invariant buf[..p] + Stored(rest) == Stored(v)
      decreases |rest|
    {
      NoMore(rest);
      ghost var before := buf[..p];
      ghost var s, later := rest[0], Flat(rest[1..]) + [0];
      OneItem(rest, before);
      q, p := SaveItem(q, buf, p, s, later);
      PutByte(buf, p, COMMA);
      p := p + 1;
      q := q[1..];
      rest := rest[1..];
    }
    NoMore(rest);
    assert buf[..p] == Stored(v) by { assert buf[..p] + [] == buf[..p]; }
    PutByte(buf, p, 0);
    len := p;
  }

  lemma {:induction false} OneItem(rest: seq<bytes>, done: bytes)
    requires rest != [] && Items(rest)
    ensures NulFree(rest[0]) && Items(rest[1..])
    ensures Flat(rest) + [0] == rest[0] + ([0] + (Flat(rest[1..]) + [0]))
    ensures ([0] + (Flat(rest[1..]) + [0]))[1..] == Flat(rest[1..]) + [0]
    ensures |Flat(rest)| == |rest[0]| + 1 + |Flat(rest[1..])|
    ensures done + Stored(rest) == done + Escape(rest[0]) + [COMMA] + Stored(rest[1..])
  {
    hide Escape, Stored, Flat;
    StoredIs(rest);
    Associative4(done, Escape(rest[0]), [COMMA], Stored(rest[1..]));
    Associative(rest[0] + [0], Flat(rest[1..]), [0]);
    Associative(rest[0], [0], Flat(rest[1..]) + [0]);
  }

  lemma {:induction false} NoMore(rest: seq<bytes>)
    requires Items(rest)
    ensures (Flat(rest) + [0])[0] == 0 <==> rest == []
    ensures Stored([]) == [] && Flat([]) == []
  {
    if rest != [] {
      assert (Flat(rest) + [0])[0] == rest[0][0];
    }
  }

  // -------------------------------------------------------------------------------------------
  // Loading
  // -------------------------------------------------------------------------------------------

  /** A stored string in which every backslash has a byte after it. */
  predicate Whole(t: bytes) {
    if t == [] then true
    else if t[0] == BACKSLASH then |t| > 1 && Whole(t[2..])
    else Whole(t[1..])
  }

  /** One string, up to an unescaped comma or the end, and what is left. */
  function LoadItem(t: bytes): (r: (bytes, bytes))
    requires Whole(t)
    ensures Whole(r.1) && |r.1| <= |t| && (r.1 != [] ==> r.1[0] == COMMA)
  {
    if t == [] || t[0] == COMMA then ([], t)
    else if t[0] == BACKSLASH then
      var (s, rest) := LoadItem(t[2..]);
      ([t[1]] + s, rest)
    else
      var (s, rest) := LoadItem(t[1..]);
      ([if t[0] == EQUALS then TAB else t[0]] + s, rest)
  }

  /** The list in memory, without the last NUL, that a stored string gives. */
  function Loaded(t: bytes): bytes
    requires Whole(t)
    decreases |t|
  {
    if t == [] then []
    else
      var (s, rest) := LoadItem(t);
      s + [0] + if rest == [] then [] else Loaded(rest[1..])
  }

  /** The inner loop that loads. */
  method ReadItem(p0: bytes, env: array<byte>, q0: nat) returns (p: bytes, q: nat)
    requires Whole(p0) && q0 + |LoadItem(p0).0| <= env.Length
    modifies env
    ensures p == LoadItem(p0).1 && q == q0 + |LoadItem(p0).0|
    ensures env[..q] == old(env[..q0]) + LoadItem(p0).0
  {
    p, q := p0, q0;
    ghost var done := env[..q0];
    while p != [] && p[0] != COMMA
      invariant Whole(p) && LoadItem(p).1 == LoadItem(p0).1
      invariant q + |LoadItem(p).0| == q0 + |LoadItem(p0).0|
      invariant env[..q] + LoadItem(p).0 == done + LoadItem(p0).0
      decreases |p|
    {
      ghost var before, s := env[..q], LoadItem(p).0;
      var c := p[0];
      p := p[1..];
      if c == EQUALS {
        c := TAB;
      }
      if c == BACKSLASH {
        c := p[0];
        p := p[1..];
      }
      assert s == [c] + LoadItem(p).0;
      PutByte(env, q, c);
      q := q + 1;
      assert env[..q] + LoadItem(p).0 == before + s;
    }
  }

  lemma {:induction false} OneLoad(t: bytes, done: bytes)
    requires Whole(t) && t != []
    ensures var (s, rest) := LoadItem(t);
      var later := if rest == [] then [] else rest[1..];
      && Whole(later) && |later| < |t|
      && |Loaded(t)| == |s| + 1 + |Loaded(later)|
      && done + Loaded(t) == done + s + [0] + Loaded(later)
  {
    ItemShorter(t);
    LoadedIs(t);
    hide LoadItem, Loaded;
    var (s, rest) := LoadItem(t);
    Associative4(done, s, [0], if rest == [] then [] else Loaded(rest[1..]));
    NothingToLoad();
  }

  lemma {:induction false} LoadedIs(t: bytes)
    requires Whole(t) && t != []
    ensures var (s, rest) := LoadItem(t);
      Loaded(t) == s + [0] + if rest == [] then [] else Loaded(rest[1..])
  {
    hide LoadItem, Whole;
  }

  lemma {:induction false} NothingToLoad()
    ensures Whole([]) && Loaded([]) == []
  {
  }

  lemma {:induction false} ItemShorter(t: bytes)
    requires Whole(t) && t != []
    ensures LoadItem(t).1 == [] || |LoadItem(t).1[1..]| < |t|
    ensures Whole(LoadItem(t).1) && (LoadItem(t).1 != [] ==> Whole(LoadItem(t).1[1..]))
  {
  }

  /** The outer loop that loads. */
  method Load(stored: bytes, env: array<byte>) returns (len: nat)
    requires Whole(stored) && |Loaded(stored)| < env.Length
    modifies env
    ensures len == |Loaded(stored)| && env[..len + 1] == Loaded(stored) + [0]
  {
    hide LoadItem, Loaded, Whole;
    NothingToLoad();
    var p, q := stored, 0;
    while p != []
      invariant Whole(p) && 0 <= q <= q + |Loaded(p)| == |Loaded(stored)|
      invariant env[..q] + Loaded(p) == Loaded(stored)
      decreases |p|
    {
      OneLoad(p, env[..q]);
      p, q := ReadItem(p, env, q);
      PutByte(env, q, 0);
      q := q + 1;
      if p != [] {
        p := p[1..];
      }
    }
    PutByte(env, q, 0);
    len := q;
  }

  // -------------------------------------------------------------------------------------------
  // There and back
  // -------------------------------------------------------------------------------------------

  lemma {:induction false} ItemBack(s: bytes, later: bytes)
    requires Whole(later)
    ensures Whole(Escape(s) + ([COMMA] + later))
    ensures LoadItem(Escape(s) + ([COMMA] + later)) == (s, [COMMA] + later)
    decreases |s|
  {
    var tail := [COMMA] + later;
    if s == [] {
      assert Escape(s) + tail == tail && tail[1..] == later;
    } else {
      ItemBack(s[1..], later);
      ByteBack(s[0], Escape(s[1..]) + tail);
      hide LoadItem, Whole, EscapeByte;
      assert Escape(s) + tail == EscapeByte(s[0]) + (Escape(s[1..]) + tail);
      assert s == [s[0]] + s[1..];
    }
  }

  lemma {:induction false} ByteBack(c: byte, rest: bytes)
    requires Whole(rest)
    ensures Whole(EscapeByte(c) + rest)
    ensures LoadItem(EscapeByte(c) + rest) == ([c] + LoadItem(rest).0, LoadItem(rest).1)
  {
    assert (EscapeByte(c) + rest)[|EscapeByte(c)|..] == rest;
  }

  /** Every list of strings that are not empty is loaded as it was saved. */
  lemma {:induction false} SaveThenLoad(v: seq<bytes>)
    requires Items(v)
    ensures Whole(Stored(v)) && Loaded(Stored(v)) == Flat(v)
    decreases |v|
  {
    NothingToLoad();
    NoMore([]);
    hide LoadItem, Escape, Loaded, Whole, Stored, Flat;
    if v != [] {
      var later := Stored(v[1..]);
      SaveThenLoad(v[1..]);
      ItemBack(v[0], later);
      StoredCons(v);
      LoadedCons(Stored(v), v[0], later);
    }
  }

  lemma {:induction false} StoredCons(v: seq<bytes>)
    requires v != []
    ensures Stored(v) == Escape(v[0]) + ([COMMA] + Stored(v[1..])) && Stored(v) != []
    ensures Flat(v) == v[0] + [0] + Flat(v[1..])
  {
    hide Escape, Stored, Flat;
    StoredIs(v);
    Associative(Escape(v[0]), [COMMA], Stored(v[1..]));
  }

  lemma {:induction false} StoredIs(v: seq<bytes>)
    requires v != []
    ensures Stored(v) == Escape(v[0]) + [COMMA] + Stored(v[1..])
    ensures Flat(v) == v[0] + [0] + Flat(v[1..])
  {
  }

  lemma Associative(a: bytes, b: bytes, c: bytes)
    ensures a + b + c == a + (b + c)
  {
  }

  lemma Associative4(a: bytes, b: bytes, c: bytes, d: bytes)
    ensures a + (b + c + d) == a + b + c + d && b + c + d == b + (c + d)
  {
  }

  lemma {:induction false} LoadedCons(t: bytes, s: bytes, later: bytes)
    requires Whole(t) && Whole(later) && t != [] && LoadItem(t) == (s, [COMMA] + later)
    ensures Loaded(t) == s + [0] + Loaded(later)
  {
    hide LoadItem, Whole;
    assert ([COMMA] + later)[1..] == later;
  }

  // -------------------------------------------------------------------------------------------
  // What the setting looks like
  // -------------------------------------------------------------------------------------------

  /** A text of which nothing has to be escaped. */
  predicate Plain(s: bytes) {
    forall k :: 0 <= k < |s| ==> s[k] != 9 && s[k] != 44 && s[k] != 61 && s[k] != 92
  }

  lemma {:induction false} PlainEscape(s: bytes)
    requires Plain(s)
    ensures Escape(s) == s
    decreases |s|
  {
    if s != [] {
      PlainEscape(s[1..]);
      assert [s[0]] + s[1..] == s;
    }
  }

  lemma {:induction false} EscapeJoin(a: bytes, b: bytes)
    ensures Escape(a + b) == Escape(a) + Escape(b)
    decreases |a|
  {
    hide EscapeByte;
    if a == [] {
      assert a + b == b;
    } else {
      assert (a + b)[1..] == a[1..] + b && (a + b)[0] == a[0];
      EscapeJoin(a[1..], b);
      Associative(EscapeByte(a[0]), Escape(a[1..]), Escape(b));
    }
  }

  /** Plain names and values are stored as name=value, - by the characters themselves. */
  lemma PlainEntry(name: bytes, value: bytes, v: seq<bytes>)
    requires Plain(name) && Plain(value)
    ensures Stored([name + [9] + value] + v) == name + [61] + value + [44] + Stored(v)
  {
    var s := name + [9] + value;
    PlainEscape(name);
    PlainEscape(value);
    EscapeJoin(name + [9], value);
    EscapeJoin(name, [9]);
    assert Escape([9]) == [61] by { assert [9][1..] == [] && Escape([]) == []; }
    hide Escape;
    StoredIs([s] + v);
    assert ([s] + v)[1..] == v;
  }

  /** The three characters with a meaning of their own are stored behind a backslash. */
  lemma EscapedByte(c: byte)
    requires c in {44, 61, 92}
    ensures Escape([c]) == [92, c]
  {
    assert [c][1..] == [] && Escape([]) == [];
  }

  /** Lists are told apart by their form in memory. */
  lemma {:induction false} FlatInjective(v: seq<bytes>, w: seq<bytes>)
    requires Items(v) && Items(w) && Flat(v) + [0] == Flat(w) + [0]
    ensures v == w
    decreases |v|
  {
    NoMore(v);
    NoMore(w);
    if v != [] {
      var a, b := Flat(v) + [0], Flat(w) + [0];
      var x, y := Flat(v[1..]) + [0], Flat(w[1..]) + [0];
      assert a == v[0] + [0] + x && b == w[0] + [0] + y;
      FirstNulIs(a, 0, |v[0]|);
      FirstNulIs(b, 0, |w[0]|);
      assert a[..|v[0]|] == v[0] && b[..|w[0]|] == w[0];
      assert a[|v[0]| + 1..] == x && b[|w[0]| + 1..] == y;
      FlatInjective(v[1..], w[1..]);
      assert v == [v[0]] + v[1..] && w == [w[0]] + w[1..];
    }
  }
}
