/**
 * The byte queue of MISC.C: a linked list of 512-byte granules that stands for one byte sequence.
 */
module BufferChain {
  import opened Bytes

  const BUFFER_GRANULE := 512

  /** memcpy of `data` to offset `off` of a buffer. */
  function Copied(buf: bytes, off: nat, data: bytes): (r: bytes)
    requires off + |data| <= |buf|
    ensures |r| == |buf| && r[..off] == buf[..off] && r[off..off + |data|] == data
  {
    buf[..off] + data + buf[off + |data|..]
  }

  /** A copy behind a stretch that ends the stream lengthens the stretch with the stream. */
  lemma CopiedStretch(buf: bytes, off: nat, data: bytes, s: bytes, start: nat)
    requires off + |data| <= |buf|
    requires start + off == |s| && buf[..off] == s[start..]
    ensures Copied(buf, off, data)[..off + |data|] == (s + data)[start..]
    ensures Copied(buf, off, data)[..off] == buf[..off]
  {
  }

  lemma SliceStays(s: bytes, data: bytes, start: nat, end: nat)
    requires start <= end <= |s|
    ensures (s + data)[start..end] == s[start..end]
  {
  }

  /** Equal stretches have equal parts. */
  lemma SubSlice(x: bytes, from: nat, y: bytes, at: nat, len: nat, a: nat, b: nat)
    requires from + len <= |x| && at + len <= |y| && x[from..from + len] == y[at..at + len]
    requires a <= b <= len
    ensures x[from + a..from + b] == y[at + a..at + b]
  {
    SliceOfSlice(x, from, from + len, a, b);
    SliceOfSlice(y, at, at + len, a, b);
  }

  lemma SliceOfSlice(x: bytes, from: nat, to: nat, a: nat, b: nat)
    requires from <= to <= |x| && a <= b <= to - from
    ensures x[from..to][a..b] == x[from + a..from + b]
  {
    var l, r := x[from..to][a..b], x[from + a..from + b];
    assert |l| == |r|;
    assert forall k :: 0 <= k < |l| ==> l[k] == r[k];
  }

  lemma Slice(buf: bytes, len: nat, s: bytes, start: nat, a: nat, b: nat)
    requires len <= |buf| && start + len <= |s| && buf[..len] == s[start..start + len]
    requires a <= b <= len
    ensures buf[a..b] == s[start + a..start + b]
  {
    assert buf[..len] == buf[0..0 + len];
    SubSlice(buf, 0, s, start, len, a, b);
  }

  /** The buffer lies inside the granule, as in the source. */
  class Granule {
    var next: Granule?
    var buflen: nat
    var bufpos: nat
    var buf: bytes
    ghost var freed: bool   // sfree has been called on it
    ghost var serial: nat   // how many granules came before it
    ghost var start: nat    // how many bytes came before it

    constructor (data: bytes, ghost serial: nat, ghost start: nat)
      requires |data| <= BUFFER_GRANULE
      ensures next == null && bufpos == 0 && buflen == |data| && !freed
      ensures this.serial == serial && this.start == start
      ensures |buf| == BUFFER_GRANULE && buf[..buflen] == data
    {
      next, bufpos, buflen, freed := null, 0, |data|, false;
      buf := Copied(seq(BUFFER_GRANULE, _ => 0), 0, data);
      this.serial, this.start := serial, start;
    }

    /** An allocated granule of a chain is never empty. */
    ghost predicate Holds()
      reads `freed, `buf, `bufpos, `buflen
    {
      !freed && |buf| == BUFFER_GRANULE && bufpos < buflen <= BUFFER_GRANULE
    }

    /** It holds its stretch of everything ever added. */
    ghost predicate Stores(stream: bytes)
      reads `freed, `buf, `bufpos, `buflen, `start
    {
      Holds() && start + buflen <= |stream| && buf[..buflen] == stream[start..start + buflen]
    }
  }

  /** Granule number `i` of a chain, after `dropped` others and before the stream position `end`: it
      stores its stretch of the stream, only the first may have been read from, and it points to the
      next, which continues the stream. */
  ghost predicate Placed(spine: seq<Granule>, i: nat, dropped: nat, stream: bytes)
    requires i < |spine|
    reads spine
  {
    var g := spine[i];
    && g.serial == dropped + i && g.Stores(stream) && (i > 0 ==> g.bufpos == 0)
    && (if i + 1 < |spine| then g.next == spine[i + 1] && spine[i + 1].start == g.start + g.buflen
        else g.next == null && g.start + g.buflen == |stream|)
  }

  ghost predicate Laid(spine: seq<Granule>, dropped: nat, stream: bytes)
    reads spine
  {
    forall i {:trigger Placed(spine, i, dropped, stream)} :: 0 <= i < |spine| ==> Placed(spine, i, dropped, stream)
  }

  /** As granules are numbered, none occurs twice. */
  lemma Distinct(spine: seq<Granule>, dropped: nat, stream: bytes)
    requires Laid(spine, dropped, stream)
    ensures forall i, j :: 0 <= i < j < |spine| ==> spine[i] != spine[j]
  {
    forall i, j | 0 <= i < j < |spine|
      ensures spine[i] != spine[j]
    {
      assert Placed(spine, i, dropped, stream) && Placed(spine, j, dropped, stream);
    }
  }

  lemma TailLaid(spine: seq<Granule>, dropped: nat, stream: bytes)
    requires spine != [] && Laid(spine, dropped, stream)
    ensures Laid(spine[1..], dropped + 1, stream)
  {
    var rest := spine[1..];
    forall i {:trigger Placed(rest, i, dropped + 1, stream)} | 0 <= i < |rest|
      ensures Placed(rest, i, dropped + 1, stream)
    {
      assert Placed(spine, i + 1, dropped, stream);
      assert rest[i] == spine[i + 1];
    }
  }

  class Bufchain {
    var head: Granule?
    var tail: Granule?
    var buffersize: nat
    ghost var spine: seq<Granule>   // the granules in the chain
    ghost var dropped: nat          // granules freed so far
    ghost var stream: bytes         // every byte ever added
    ghost var consumed: nat         // bytes consumed so far

    ghost function Repr(): set<object>
      reads this
    {
      {this as object} + (set g: object | g in spine)
    }

    ghost predicate Valid()
      reads this, spine
    {
      && consumed <= |stream| && buffersize == |stream| - consumed
      && Laid(spine, dropped, stream)
      && (spine == [] ==> head == null && tail == null && consumed == |stream|)
      && (spine != [] ==> head == spine[0] && tail == spine[|spine| - 1]
                          && spine[0].start + spine[0].bufpos == consumed)
    }

    /** The byte sequence the chain stands for. */
    ghost function Contents(): bytes
      requires consumed <= |stream|
      reads this
    {
      stream[consumed..]
    }

    /** bufchain_init. */
    constructor ()
      ensures Valid() && Contents() == [] && spine == [] && stream == []
    {
      head, tail, buffersize := null, null, 0;
      spine, dropped, stream, consumed := [], 0, [], 0;
    }

    /** bufchain_clear. */
    method Clear()
      requires Valid()
      modifies this, spine
      ensures Valid() && Contents() == [] && spine == []
      ensures forall g :: g in old(spine) ==> g.freed
    {
      ghost var n := 0;
      while head != null
        invariant 0 <= n <= |spine| && spine == old(spine)
        invariant head == if n < |spine| then spine[n] else null
        invariant forall i :: 0 <= i < |spine| ==> spine[i].next == old(spine[i].next)
        invariant forall i :: 0 <= i < n ==> spine[i].freed
        decreases |spine| - n
      {
        var b := head;
        assert old(Placed(spine, n, dropped, stream));
        head := head.next;
        b.freed := true;
        n := n + 1;
      }
      tail := null;
      buffersize := 0;
      spine, consumed, stream := [], 0, [];
    }

    /** bufchain_size. */
    method Size() returns (n: nat)
      requires Valid()
      ensures n == |Contents()|
    {
      n := buffersize;
    }

    /** A chain with bytes in it has a head, and its head has bytes in it: the next ones. */
    lemma HeadHolds()
      requires Valid() && consumed < |stream|
      ensures head != null && spine != [] && head == spine[0] && head.Stores(stream)
      ensures head.start + head.bufpos == consumed
      ensures head.buf[head.bufpos..head.buflen] == stream[consumed..consumed + head.buflen - head.bufpos]
      ensures head.next == (if |spine| == 1 then null else spine[1])
      ensures |spine| == 1 ==> head.start + head.buflen == |stream|
      ensures |spine| > 1 ==> spine[1].start == head.start + head.buflen && spine[1].bufpos == 0
    {
      assert Placed(spine, 0, dropped, stream);
      if |spine| > 1 {
        assert Placed(spine, 1, dropped, stream);
      }
      Slice(head.buf, head.buflen, stream, head.start, head.bufpos, head.buflen);
    }

    lemma AllHold()
      requires Valid()
      ensures forall i {:trigger spine[i]} :: 0 <= i < |spine| ==> spine[i].Holds()
    {
      forall i {:trigger spine[i]} | 0 <= i < |spine|
        ensures spine[i].Holds()
      {
        assert Placed(spine, i, dropped, stream);
      }
    }

    /** What granule number `k` holds from its read position on, and what follows it. */
    lemma GranuleAt(k: nat)
      requires Valid() && k < |spine|
      ensures var g := spine[k];
              && g.Stores(stream)
              && g.next == (if k + 1 < |spine| then spine[k + 1] else null)
              && (k + 1 == |spine| ==> g.start + g.buflen == |stream|)
              && (k + 1 < |spine| ==> spine[k + 1].start + spine[k + 1].bufpos == g.start + g.buflen)
    {
      assert Placed(spine, k, dropped, stream);
      if k + 1 < |spine| {
        assert Placed(spine, k + 1, dropped, stream);
      }
    }

    /** bufchain_prefix: the region (granule, offset, length) at the head. */
    method Prefix() returns (g: Granule, off: nat, len: nat)
      requires Valid() && Contents() != []
      ensures spine != [] && g == spine[0] && !g.freed
      ensures off == g.bufpos && off + len == g.buflen <= |g.buf| && len > 0
      ensures consumed + len <= |stream| && g.buf[off..off + len] == stream[consumed..consumed + len]
      ensures g.buf[off..off + len] <= Contents()
    {
      HeadHolds();
      g := head;
      len := head.buflen - head.bufpos;
      off := head.bufpos;
    }

    /** The part of bufchain_consume that frees a used-up head. */
    method DropHead()
      requires Valid() && consumed < |stream|
      modifies this, spine
      ensures Valid() && stream == old(stream)
      ensures old(spine) != [] && spine == old(spine)[1..]
      ensures consumed == old(consumed) + old(spine[0].buflen) - old(spine[0].bufpos)
      ensures forall g :: g in spine ==> g.freed == old(g.freed)
    {
      HeadHolds();
      TailLaid(spine, dropped, stream);
      Distinct(spine, dropped, stream);
      var remlen := head.buflen - head.bufpos;
      var tmp := head;
      head := tmp.next;
      tmp.freed := true;
      if head == null {
        tail := null;
      }
      buffersize := buffersize - remlen;
      spine, dropped, consumed := spine[1..], dropped + 1, consumed + remlen;
      forall i | 0 <= i < |spine|
        ensures Placed(spine, i, dropped, stream)
      {
        assert old(Placed(spine[1..], i, dropped + 1, stream));
      }
    }

    /** The part that moves the read position within the head. */
    method Advance(n: nat)
      requires Valid() && consumed < |stream|
      requires head != null && n < head.buflen - head.bufpos
      modifies this, spine
      ensures Valid() && stream == old(stream) && spine == old(spine) && consumed == old(consumed) + n
    {
      HeadHolds();
      Distinct(spine, dropped, stream);
      head.bufpos := head.bufpos + n;
      buffersize := buffersize - n;
      consumed := consumed + n;
      forall i | 0 <= i < |spine|
        ensures Placed(spine, i, dropped, stream)
      {
        assert old(Placed(spine, i, dropped, stream));
      }
    }

    /** bufchain_consume. */
    method Consume(n: nat)
      requires Valid() && n <= |Contents()|
      modifies this, spine
      ensures Valid() && Contents() == old(Contents())[n..]
      ensures stream == old(stream) && consumed == old(consumed) + n
      ensures |spine| <= |old(spine)| && spine == old(spine)[|old(spine)| - |spine|..]
    {
      var len := n;
      while len > 0
        invariant 0 <= len <= n
        invariant Valid() && stream == old(stream) && consumed + len == old(consumed) + n
        invariant |spine| <= |old(spine)|
        invariant spine == old(spine)[|old(spine)| - |spine|..]
        decreases len
      {
        HeadHolds();
        var remlen := head.buflen - head.bufpos;
        if len >= remlen {
          DropHead();
        } else {
          remlen := len;
          Advance(remlen);
        }
        len := len - remlen;
      }
    }

    /** bufchain_fetch: copy a prefix out, leaving the chain alone. */
    method Fetch(n: nat) returns (data: bytes)
      requires Valid() && n <= |Contents()|
      ensures data == Contents()[..n]
    {
      hide Laid;
      data := [];
      var tmp, len := head, n;
      ghost var k, at := 0, consumed;
      while len > 0
        invariant 0 <= len <= n && 0 <= k <= |spine|
        invariant tmp == if k < |spine| then spine[k] else null
        invariant |data| + len == n && at == consumed + |data| <= |stream|
        invariant data == stream[consumed..at]
        invariant len > 0 && k < |spine| ==> tmp.start + tmp.bufpos == at
        invariant len > 0 && k == |spine| ==> at == |stream|
        decreases len
      {
        GranuleAt(k);
        var remlen := tmp.buflen - tmp.bufpos;
        if len < remlen {
          remlen := len;
        }
        var piece := tmp.buf[tmp.bufpos..tmp.bufpos + remlen];
        Slice(tmp.buf, tmp.buflen, stream, tmp.start, tmp.bufpos, tmp.bufpos + remlen);
        Continues(stream, consumed, at, at + remlen);
        data := data + piece;
        at := at + remlen;
        tmp := tmp.next;
        len := len - remlen;
        k := k + 1;
      }
      assert data == Contents()[..n];
    }

    /** What was in the chain is neither freed, moved nor overwritten. */
    twostate predicate Stable(before: seq<Granule>)
      reads this, before
    {
      && before <= spine
      && forall i {:trigger before[i]} :: 0 <= i < |before| ==> Kept(before[i])
    }

    static twostate predicate Kept(g: Granule)
      reads g
    {
      && old(g.Holds()) && g.Holds()
      && g.bufpos == old(g.bufpos) && g.start == old(g.start) && old(g.buflen) <= g.buflen
      && g.buf[..old(g.buflen)] == old(g.buf[..g.buflen])
    }

    /** The assignments of bufchain_add that put data into the tail. */
    method Pour(g: Granule, data: bytes)
      requires g == tail && |g.buf| == BUFFER_GRANULE && g.buflen + |data| <= BUFFER_GRANULE
      modifies this`buffersize, this`stream, g`buf, g`buflen
      ensures g.buf == Copied(old(g.buf), old(g.buflen), data) && g.buflen == old(g.buflen) + |data|
      ensures buffersize == old(buffersize) + |data| && stream == old(stream) + data
    {
      g.buf := Copied(g.buf, g.buflen, data);
      g.buflen := g.buflen + |data|;
      buffersize := buffersize + |data|;
      stream := stream + data;
    }

    /** The part of bufchain_add that uses the room left in the tail. */
    method FillTail(data: bytes)
      requires Valid() && tail != null && tail.buflen + |data| <= BUFFER_GRANULE
      modifies this, spine
      ensures Valid() && spine == old(spine) && stream == old(stream) + data && consumed == old(consumed)
      ensures Stable(old(spine))
    {
      hide Copied, Granule.Stores;
      ghost var n, before := |spine| - 1, stream;
      Distinct(spine, dropped, stream);
      AllHold();
      GranuleAt(n);
      ghost var off := tail.buflen;
      assert tail.Holds() && tail.start + off == |stream| && tail.buf[..off] == stream[tail.start..] by {
        Unpack(tail, stream);
      }
      CopiedStretch(tail.buf, off, data, stream, tail.start);
      Pour(tail, data);
      PouredStores(tail, before, data);
      forall i | 0 <= i < n
        ensures spine[i].Stores(stream)
      {
        assert old(Placed(spine, i, dropped, stream));
        StoresStill(spine[i], before, data);
      }
      forall i | 0 <= i < |spine|
        ensures Placed(spine, i, dropped, stream)
      {
        assert old(Placed(spine, i, dropped, stream));
      }
      assert Kept(tail);
      assert forall i {:trigger spine[i]} :: 0 <= i < n ==> Kept(spine[i]);
    }

    /** The assignments of bufchain_add that append a granule. */
    method Link(data: bytes, ghost serial: nat) returns (g: Granule)
      requires 0 < |data| <= BUFFER_GRANULE && (tail == null <==> head == null)
      modifies this`head, this`tail, this`buffersize, this`stream
      modifies (if tail == null then {} else {tail})`next
      ensures fresh(g) && g.Holds() && g.bufpos == 0 && g.buflen == |data| && g.buf[..g.buflen] == data
      ensures g.serial == serial && g.start == |old(stream)| && g.next == null
      ensures tail == g && head == (if old(head) == null then g else old(head))
      ensures old(tail) != null ==> old(tail).next == g
      ensures buffersize == old(buffersize) + |data| && stream == old(stream) + data
    {
      g := new Granule(data, serial, |stream|);
      if tail != null {
        tail.next := g;
      } else {
        head := g;
      }
      tail := g;
      buffersize := buffersize + |data|;
      stream := stream + data;
    }

    /** The same, seen from the chain: the granules in it keep their data, and the last points to the new one. */
    method LinkIn(data: bytes) returns (g: Granule)
      requires Valid() && 0 < |data| <= BUFFER_GRANULE
      modifies this`head, this`tail, this`buffersize, this`stream
      modifies (if tail == null then {} else {tail})`next
      ensures fresh(g) && g.Holds() && g.bufpos == 0 && g.buflen == |data| && g.buf[..g.buflen] == data
      ensures g.serial == dropped + |spine| && g.start == |old(stream)| && g.next == null
      ensures tail == g && head == (if old(head) == null then g else old(head))
      ensures buffersize == old(buffersize) + |data| && stream == old(stream) + data
      ensures forall i {:trigger spine[i]} :: 0 <= i < |spine| ==> Kept(spine[i])
      ensures forall i {:trigger Linked(spine, i, dropped, old(stream), g)} ::
                0 <= i < |spine| ==> Linked(spine, i, dropped, old(stream), g)
    {
      hide Granule.Stores;
      ghost var before := stream;
      Distinct(spine, dropped, stream);
      AllHold();
      g := Link(data, dropped + |spine|);
      forall i {:trigger Linked(spine, i, dropped, before, g)} | 0 <= i < |spine|
        ensures Linked(spine, i, dropped, before, g)
      {
        assert old(Placed(spine, i, dropped, stream));
      }
    }

    /** The part of bufchain_add that appends a granule. */
    method AppendGranule(data: bytes)
      requires Valid() && 0 < |data| <= BUFFER_GRANULE
      modifies this, spine
      ensures Valid() && stream == old(stream) + data && consumed == old(consumed)
      ensures |spine| == |old(spine)| + 1 && fresh(spine[|old(spine)|])
      ensures Stable(old(spine))
    {
      hide Linked, Laid;
      ghost var was, before := spine, stream;
      AllHold();
      var g := LinkIn(data);
      spine := spine + [g];
      LaidLonger(was, g, dropped, before, data);
    }

    /** The loop that stores what did not fit into the tail. */
    method AppendAll(data: bytes)
      requires Valid()
      modifies this, spine
      ensures Valid() && stream == old(stream) + data && consumed == old(consumed)
      ensures Stable(old(spine))
      ensures forall k :: |old(spine)| <= k < |spine| ==> fresh(spine[k])
    {
      hide Laid, Granule.Stores;
      var rest := data;
      AllHold();
      assert forall i {:trigger spine[i]} :: 0 <= i < |spine| ==> Kept(spine[i]);
      while rest != []
        invariant Valid() && consumed == old(consumed)
        invariant stream + rest == old(stream) + data
        invariant Stable(old(spine))
        invariant forall k :: |old(spine)| <= k < |spine| ==> fresh(spine[k])
        decreases |rest|
      {
        var grainlen := if |rest| < BUFFER_GRANULE then |rest| else BUFFER_GRANULE;
        AppendGranule(rest[..grainlen]);
        rest := rest[grainlen..];
      }
    }

    /** bufchain_add. */
    method Add(data: bytes)
      requires Valid()
      modifies this, spine
      ensures Valid() && Contents() == old(Contents()) + data
      ensures stream == old(stream) + data && consumed == old(consumed)
      ensures Stable(old(spine))
      ensures forall k :: |old(spine)| <= k < |spine| ==> fresh(spine[k])
    {
      hide Laid, Granule.Stores;
      AllHold();
      if data == [] {
        assert forall i {:trigger spine[i]} :: 0 <= i < |spine| ==> Kept(spine[i]);
        return;
      }
      var rest := data;
      if tail != null && tail.buflen < BUFFER_GRANULE {
        var room := BUFFER_GRANULE - tail.buflen;
        var copylen := if |rest| < room then |rest| else room;
        FillTail(rest[..copylen]);
        rest := rest[copylen..];
      }
      AppendAll(rest);
    }
  }

  /** Like `Placed`, but the last granule points to `last`. */
  ghost predicate Linked(spine: seq<Granule>, i: nat, dropped: nat, stream: bytes, last: Granule)
    requires i < |spine|
    reads spine
  {
    var g := spine[i];
    && g.serial == dropped + i && g.Stores(stream) && (i > 0 ==> g.bufpos == 0)
    && (if i + 1 < |spine| then g.next == spine[i + 1] && spine[i + 1].start == g.start + g.buflen
        else g.next == last && g.start + g.buflen == |stream|)
  }

  /** A new granule at the end of a chain. */
  lemma LaidLonger(spine: seq<Granule>, g: Granule, dropped: nat, stream: bytes, data: bytes)
    requires forall i {:trigger Linked(spine, i, dropped, stream, g)} :: 0 <= i < |spine| ==>
             Linked(spine, i, dropped, stream, g)
    requires g.Holds() && g.bufpos == 0 && g.buflen == |data| && g.buf[..g.buflen] == data
    requires g.serial == dropped + |spine| && g.start == |stream| && g.next == null
    ensures Laid(spine + [g], dropped, stream + data)
  {
    hide Granule.Stores;
    var all := spine + [g];
    NewStores(g, stream, data);
    forall i {:trigger Placed(all, i, dropped, stream + data)} | 0 <= i < |all|
      ensures Placed(all, i, dropped, stream + data)
    {
      if i < |spine| {
        assert Linked(spine, i, dropped, stream, g);
        StoresStill(spine[i], stream, data);
      }
    }
  }

  lemma Continues(s: bytes, a: nat, b: nat, c: nat)
    requires a <= b <= c <= |s|
    ensures s[a..b] + s[b..c] == s[a..c]
  {
  }

  lemma Unpack(g: Granule, stream: bytes)
    requires g.Stores(stream) && g.start + g.buflen == |stream|
    ensures g.Holds() && g.buf[..g.buflen] == stream[g.start..]
  {
    assert stream[g.start..g.start + g.buflen] == stream[g.start..];
  }

  lemma PouredStores(g: Granule, stream: bytes, data: bytes)
    requires g.Holds() && g.start <= |stream| && g.start + g.buflen == |stream + data|
    requires g.buf[..g.buflen] == (stream + data)[g.start..]
    ensures g.Stores(stream + data)
  {
    assert (stream + data)[g.start..g.start + g.buflen] == (stream + data)[g.start..];
  }

  lemma NewStores(g: Granule, stream: bytes, data: bytes)
    requires g.Holds() && g.start == |stream| && g.buflen == |data| && g.buf[..g.buflen] == data
    ensures g.Stores(stream + data)
  {
  }

  lemma StoresStill(g: Granule, stream: bytes, data: bytes)
    requires g.Stores(stream)
    ensures g.Stores(stream + data)
  {
    SliceStays(stream, data, g.start, g.start + g.buflen);
  }
}
