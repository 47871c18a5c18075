/**
 * The reply side of the HTTP CONNECT negotiator (get_line_end and proxy_http_negotiate in PROXY.C).
 *
 * The reply may arrive in pieces. `Feed` is what one call of the negotiator does with the bytes it
 * has. The theorems say exactly for which status lines the cuts between pieces are invisible.
 */
module HttpConnect {
  import opened Bytes

  const NEWLINE: byte := 10
  const SPACE: byte := 32
  const TAB: byte := 9

  // -------------------------------------------------------------------------------------------
  // Line ends
  // -------------------------------------------------------------------------------------------

  /** End of the first header line, counting from `off`, or -1. A line longer than two bytes ends only
      if the second byte after its newline is known and is neither a space nor a tab. */
  function LineEndFrom(data: bytes, off: nat): (end: int)
    ensures end == -1 || (off < end <= |data| && data[end - 1] == NEWLINE)
    ensures end > 2 ==> end + 1 < |data|
    decreases |data| - off
  {
    if off >= |data| then -1
    else if data[off] != NEWLINE then LineEndFrom(data, off + 1)
    else if off + 1 <= 2 then off + 1
    else if off + 2 < |data| && data[off + 2] != SPACE && data[off + 2] != TAB then off + 1
    else LineEndFrom(data, off + 3)
  }

  function LineEnd(data: bytes): int {
    LineEndFrom(data, 0)
  }

  /** get_line_end. */
  method GetLineEnd(data: bytes) returns (end: int)
    ensures end == LineEnd(data)
  {
    var off := 0;
    while off < |data|
      invariant 0 <= off && LineEnd(data) == LineEndFrom(data, off)
      decreases |data| - off
    {
      if data[off] == NEWLINE {
        off := off + 1;
        if off <= 2 {
          return off;
        }
        if off + 1 < |data| && data[off + 1] != SPACE && data[off + 1] != TAB {
          return off;
        }
        off := off + 1;
      }
      off := off + 1;
    }
    return -1;
  }

  /** A line end, once found, stays where it is when more data arrives. */
  lemma {:induction false} LineEndStable(data: bytes, more: bytes, off: nat)
    requires LineEndFrom(data, off) >= 0
    ensures LineEndFrom(data + more, off) == LineEndFrom(data, off)
    decreases |data| - off
  {
    if data[off] != NEWLINE {
      LineEndStable(data, more, off + 1);
    } else if off + 1 <= 2 || (off + 2 < |data| && data[off + 2] != SPACE && data[off + 2] != TAB) {
    } else {
      LineEndStable(data, more, off + 3);
    }
  }

  // -------------------------------------------------------------------------------------------
  // The status line: sscanf with "HTTP/%i.%i %n"
  // -------------------------------------------------------------------------------------------

  /** Scanning stops short of the end of the input (`At` with a smaller position, or `Bad`), or it
      runs off the end (`Short`, or `At` the end). */
  datatype Scan = Short | Bad | At(pos: nat)

  predicate IsSpace(b: byte) {
    b == 32 || 9 <= b <= 13
  }

  predicate IsDigit(b: byte, base: nat) {
    if base == 8 then 48 <= b < 56
    else if base == 10 then 48 <= b < 58
    else 48 <= b < 58 || 65 <= b < 71 || 97 <= b < 103
  }

  function SkipSpace(data: bytes, off: nat): (pos: nat)
    requires off <= |data|
    ensures off <= pos <= |data| && (pos < |data| ==> !IsSpace(data[pos]))
    decreases |data| - off
  {
    if off == |data| || !IsSpace(data[off]) then off else SkipSpace(data, off + 1)
  }

  function SkipDigits(data: bytes, off: nat, base: nat): (pos: nat)
    requires off <= |data|
    ensures off <= pos <= |data|
    decreases |data| - off
  {
    if off == |data| || !IsDigit(data[off], base) then off else SkipDigits(data, off + 1, base)
  }

  /** "%i": white space, a sign, then a hexadecimal, octal or decimal number. */
  function ScanInt(data: bytes, off: nat): (r: Scan)
    requires off <= |data|
    ensures r.At? ==> off < r.pos <= |data|
  {
    var a := SkipSpace(data, off);
    if a == |data| then Short
    else
      var b := if data[a] == '+' as int || data[a] == '-' as int then a + 1 else a;
      if b == |data| then Short
      else if data[b] != '0' as int then
        var c := SkipDigits(data, b, 10);
        if c == b then Bad else At(c)
      else if b + 1 < |data| && (data[b + 1] == 'x' as int || data[b + 1] == 'X' as int) then
        var c := SkipDigits(data, b + 2, 16);
        if c > b + 2 then At(c) else if c == |data| then Short else Bad
      else At(SkipDigits(data, b + 1, 8))
  }

  const HTTP: bytes := ['H' as int, 'T' as int, 'T' as int, 'P' as int, '/' as int]

  /** Position of the status code. */
  function ScanStatus(data: bytes): (r: Scan)
    ensures r.At? ==> 5 < r.pos <= |data| && HTTP <= data
  {
    if |data| < 5 then (if data <= HTTP then Short else Bad)
    else if data[..5] != HTTP then Bad
    else
      var major := ScanInt(data, 5);
      if !major.At? then major
      else if major.pos == |data| then Short
      else if data[major.pos] != '.' as int then Bad
      else
        var minor := ScanInt(data, major.pos + 1);
        if !minor.At? then minor else At(SkipSpace(data, minor.pos))
  }

  /** The scan was decided before the end of the input. */
  predicate Decided(r: Scan, data: bytes) {
    r.Bad? || (r.At? && r.pos < |data|)
  }

  lemma {:induction false} SkipSpaceStable(data: bytes, more: bytes, off: nat)
    requires off <= |data| && SkipSpace(data, off) < |data|
    ensures SkipSpace(data + more, off) == SkipSpace(data, off)
    decreases |data| - off
  {
    if IsSpace(data[off]) {
      SkipSpaceStable(data, more, off + 1);
    }
  }

  lemma {:induction false} SkipDigitsStable(data: bytes, more: bytes, off: nat, base: nat)
    requires off <= |data| && SkipDigits(data, off, base) < |data|
    ensures SkipDigits(data + more, off, base) == SkipDigits(data, off, base)
    decreases |data| - off
  {
    if IsDigit(data[off], base) {
      SkipDigitsStable(data, more, off + 1, base);
    }
  }

  lemma ScanIntStable(data: bytes, more: bytes, off: nat)
    requires off <= |data| && Decided(ScanInt(data, off), data)
    ensures ScanInt(data + more, off) == ScanInt(data, off)
  {
    hide IsDigit, IsSpace;
    var a := SkipSpace(data, off);
    SkipSpaceStable(data, more, off);
    var b := if data[a] == '+' as int || data[a] == '-' as int then a + 1 else a;
    if data[b] != '0' as int {
      SkipDigitsStable(data, more, b, 10);
    } else if b + 1 < |data| && (data[b + 1] == 'x' as int || data[b + 1] == 'X' as int) {
      SkipDigitsStable(data, more, b + 2, 16);
    } else {
      SkipDigitsStable(data, more, b + 1, 8);
    }
  }

  /** A scan decided within the data is not changed by what follows. */
  lemma ScanStatusStable(data: bytes, more: bytes)
    requires Decided(ScanStatus(data), data)
    ensures ScanStatus(data + more) == ScanStatus(data)
  {
    var all := data + more;
    if |data| < 5 {
      var k :| 0 <= k < |data| && data[k] != HTTP[k];
      assert all[k] != HTTP[k];
    } else {
      assert all[..5] == data[..5];
      if data[..5] == HTTP && Decided(ScanInt(data, 5), data) {
        ScanIntStable(data, more, 5);
        var major := ScanInt(data, 5);
        if major.At? && data[major.pos] == '.' as int && ScanInt(data, major.pos + 1) != Short {
          var minor := ScanInt(data, major.pos + 1);
          if Decided(minor, data) {
            ScanIntStable(data, more, major.pos + 1);
            if minor.At? {
              SkipSpaceStable(data, more, minor.pos);
            }
          }
        }
      }
    }
  }

  // -------------------------------------------------------------------------------------------
  // The negotiator
  // -------------------------------------------------------------------------------------------

  /** `state` 1: the status line is awaited; 2: header lines are. `used` bytes have been consumed,
      `pending` have not. */
  datatype Reply =
    | Reading(state: nat, pending: bytes, used: nat)
    | Rejected(used: nat)
    | Activated(used: nat, rest: bytes)

  /** Consume complete header lines; the flag tells that the empty line has been consumed too. */
  function Headers(data: bytes): (r: (nat, bool))
    ensures r.0 <= |data|
    decreases |data|
  {
    var end := LineEnd(data);
    if end > 2 then
      var (n, done) := Headers(data[end..]);
      (end + n, done)
    else if end == 2 then (2, true)
    else (0, false)
  }

  function FeedHeaders(data: bytes, used: nat): Reply {
    var (n, done) := Headers(data);
    if done then Activated(used + n, data[n..]) else Reading(2, data[n..], used + n)
  }

  /** The status line: '2' as first digit of the code lets the headers follow. */
  function FeedStatus(data: bytes, used: nat): Reply {
    var end := LineEnd(data);
    if end < 0 then Reading(1, data, used)
    else
      var scan := ScanStatus(data);
      if scan.At? && scan.pos < |data| && data[scan.pos] == '2' as int then FeedHeaders(data[end..], used + end)
      else Rejected(if scan.At? then used + end else used)
  }

  /** One PROXY_CHANGE_RECEIVE. The socket is closed after a rejection, and left alone by the
      negotiator after an activation. */
  function Feed(r: Reply, piece: bytes): Reply {
    if !r.Reading? then r
    else if r.state == 1 then FeedStatus(r.pending + piece, r.used)
    else FeedHeaders(r.pending + piece, r.used)
  }

  /** Nothing is lost in a step: what is not counted as used is still pending. */
  lemma FeedAccounts(data: bytes, used: nat)
    ensures var r := FeedHeaders(data, used);
            && !r.Rejected? && used <= r.used <= used + |data|
            && (r.Reading? ==> r.state == 2 && r.pending == data[r.used - used..])
            && (r.Activated? ==> r.rest == data[r.used - used..])
    ensures var r := FeedStatus(data, used);
            && used <= r.used <= used + |data|
            && (r.Reading? ==> r.state in {1, 2} && r.pending == data[r.used - used..])
            && (r.Activated? ==> r.rest == data[r.used - used..])
  {
    hide LineEndFrom, ScanStatus, Headers;
    var end := LineEnd(data);
    if end >= 0 {
      var n := Headers(data[end..]).0;
      assert data[end..][n..] == data[end + n..];
    }
    assert data[0..] == data;
  }

  function FeedAll(r: Reply, pieces: seq<bytes>): Reply
    decreases |pieces|
  {
    if pieces == [] then r else FeedAll(Feed(r, pieces[0]), pieces[1..])
  }

  function Join(pieces: seq<bytes>): bytes {
    if pieces == [] then [] else pieces[0] + Join(pieces[1..])
  }

  /** The status line, and the two bytes without which get_line_end does not find its end. */
  function StatusLine(data: bytes): (line: bytes)
    requires LineEnd(data) > 2
    ensures |line| == LineEnd(data) + 2 && line <= data
  {
    data[..LineEnd(data) + 2]
  }

  /** Scanning is decided by the bytes that are there when the status line is found to be complete. */
  predicate ConclusiveStatus(data: bytes) {
    LineEnd(data) > 2 ==> Decided(ScanStatus(StatusLine(data)), StatusLine(data))
  }

  /** The assertion `len > 0` between the status line and the headers. */
  lemma HeaderBytesFollow(data: bytes)
    requires LineEnd(data) >= 0 && ScanStatus(data).At?
    ensures LineEnd(data) > 2 && |data[LineEnd(data)..]| >= 2
  {
    assert forall k :: 0 <= k < 5 ==> data[k] == HTTP[k];
    assert LineEndFrom(data, 0) == LineEndFrom(data, 1) == LineEndFrom(data, 2);
  }

  lemma HeadersByLine(data: bytes)
    ensures var end := LineEnd(data);
            Headers(data) == if end > 2 then (end + Headers(data[end..]).0, Headers(data[end..]).1)
                             else if end == 2 then (2, true) else (0, false)
  {
  }

  /** Header lines consumed early or late are the same lines. */
  lemma {:induction false} HeadersSplit(a: bytes, b: bytes)
    ensures var (n, done) := Headers(a);
            Headers(a + b) == if done then (n, true) else (n + Headers(a[n..] + b).0, Headers(a[n..] + b).1)
    decreases |a|
  {
    hide LineEndFrom, Headers;
    var end := LineEnd(a);
    HeadersByLine(a);
    if end >= 0 {
      LineEndStable(a, b, 0);
      HeadersByLine(a + b);
    }
    if end > 2 {
      var tail := a[end..];
      HeadersSplit(tail, b);
      assert (a + b)[end..] == tail + b;
      var n := Headers(tail).0;
      assert tail[n..] == a[end + n..];
    } else {
      assert a[0..] == a;
    }
  }

  lemma FeedHeadersSplit(a: bytes, b: bytes, used: nat)
    ensures FeedHeaders(a + b, used) == match FeedHeaders(a, used)
            case Reading(_, pending, u) => FeedHeaders(pending + b, u)
            case Activated(u, rest) => Activated(u, rest + b)
            case Rejected(u) => Rejected(u)
  {
    hide LineEnd, Headers;
    HeadersSplit(a, b);
    var (n, done) := Headers(a);
    assert (a + b)[n..] == a[n..] + b;
    if !done {
      var m := Headers(a[n..] + b).0;
      assert (a + b)[n + m..] == (a[n..] + b)[m..];
    }
  }

  /** A first line of one or two bytes is rejected, whatever follows. */
  lemma TinyLineRejected(data: bytes)
    requires 0 <= LineEnd(data) <= 2
    ensures ScanStatus(data) == Bad
  {
    var end := LineEnd(data);
    assert data[end - 1] == NEWLINE && HTTP[end - 1] != NEWLINE;
  }

  lemma FeedStatusSplit(data: bytes, b: bytes, used: nat)
    requires LineEnd(data) >= 0 && ConclusiveStatus(data + b)
    ensures FeedStatus(data + b, used) == match FeedStatus(data, used)
            case Reading(_, pending, u) => FeedHeaders(pending + b, u)
            case Activated(u, rest) => Activated(u, rest + b)
            case Rejected(u) => Rejected(u)
    ensures FeedStatus(data, used).Reading? ==> FeedStatus(data, used).state == 2
  {
    hide LineEndFrom, ScanStatus, Headers;
    LineEndStable(data, b, 0);
    var end := LineEnd(data);
    assert (data + b)[end..] == data[end..] + b;
    if end > 2 {
      var line, tail := data[..end + 2], data[end + 2..];
      assert StatusLine(data + b) == line && line + tail == data && line + (tail + b) == data + b;
      ScanStatusStable(line, tail);
      ScanStatusStable(line, tail + b);
    } else {
      TinyLineRejected(data);
      TinyLineRejected(data + b);
    }
    assert ScanStatus(data + b) == ScanStatus(data);
    FeedHeadersSplit(data[end..], b, used + end);
  }

  /** Cutting a reply in two leads to the same place. */
  lemma FeedSplit(r: Reply, a: bytes, b: bytes)
    requires r.Reading? && (r.state == 1 ==> ConclusiveStatus(r.pending + a + b))
    ensures Feed(r, a + b) == match Feed(r, a)
            case Activated(u, rest) => Activated(u, rest + b)
            case s => Feed(s, b)
    ensures Feed(r, a).Reading? && Feed(r, a).state == 1 ==> Feed(r, a).pending == r.pending + a
  {
    hide LineEndFrom, ScanStatus, Headers;
    var data := r.pending + a;
    assert r.pending + (a + b) == data + b;
    if r.state != 1 {
      FeedHeadersSplit(data, b, r.used);
    } else if LineEnd(data) >= 0 {
      FeedStatusSplit(data, b, r.used);
    }
  }

  lemma {:induction false} PiecesLikeWhole(r: Reply, pieces: seq<bytes>)
    requires r.Reading? && (r.state == 1 ==> ConclusiveStatus(r.pending + Join(pieces)))
    requires pieces != []
    ensures match FeedAll(r, pieces)
            case Activated(u, _) =>
              Feed(r, Join(pieces)).Activated? && Feed(r, Join(pieces)).used == u
            case s => Feed(r, Join(pieces)) == s
    decreases |pieces|
  {
    var first, rest := pieces[0], pieces[1..];
    var s := Feed(r, first);
    assert Join(pieces) == first + Join(rest);
    if rest == [] {
      assert first + [] == first;
    } else {
      assert r.pending + (first + Join(rest)) == r.pending + first + Join(rest);
      FeedSplit(r, first, Join(rest));
      if s.Reading? {
        PiecesLikeWhole(s, rest);
      } else {
        Settled(s, rest);
      }
    }
  }

  lemma {:induction false} Settled(r: Reply, pieces: seq<bytes>)
    requires !r.Reading?
    ensures FeedAll(r, pieces) == r
    decreases |pieces|
  {
    if pieces != [] {
      Settled(r, pieces[1..]);
    }
  }

  const START := Reading(1, [], 0)

  /** For a reply with a conclusive status line, whether the proxy socket is activated, and how many
      bytes of the reply go before that, does not depend on how the reply is cut. */
  lemma CutsDoNotMatter(pieces: seq<bytes>)
    requires pieces != [] && ConclusiveStatus(Join(pieces))
    ensures var whole := Feed(START, Join(pieces));
            var parts := FeedAll(START, pieces);
            && (parts.Activated? <==> whole.Activated?)
            && (parts.Rejected? <==> whole.Rejected?)
            && parts.used == whole.used
            && (parts.Reading? ==> parts == whole)
  {
    assert [] + Join(pieces) == Join(pieces);
    PiecesLikeWhole(START, pieces);
  }

  // -------------------------------------------------------------------------------------------
  // Where the cuts do matter
  // -------------------------------------------------------------------------------------------

  lemma {:induction false} SkipSpaceOn(data: bytes, more: bytes, off: nat)
    requires off <= |data| && SkipSpace(data, off) == |data|
    ensures SkipSpace(data + more, off) == SkipSpace(data + more, |data|)
    decreases |data| - off
  {
    if off < |data| {
      SkipSpaceOn(data, more, off + 1);
    }
  }

  lemma {:induction false} SkipDigitsOn(data: bytes, more: bytes, off: nat, base: nat)
    requires off <= |data| && SkipDigits(data, off, base) == |data|
    ensures SkipDigits(data + more, off, base) == SkipDigits(data + more, |data|, base)
    decreases |data| - off
  {
    if off < |data| {
      SkipDigitsOn(data, more, off + 1, base);
    }
  }

  /** A byte after which no number goes on. */
  predicate EndsNumber(tail: bytes) {
    tail != [] && (tail[0] == '.' as int || tail[0] == SPACE)
  }

  const ONE: byte := 49

  /** A number that runs up to the end of the data ends there if the next byte says so. */
  lemma ScanIntEnds(data: bytes, tail: bytes, off: nat)
    requires off <= |data| && ScanInt(data, off) == At(|data|) && EndsNumber(tail)
    ensures ScanInt(data + tail, off) == At(|data|)
  {
    var all := data + tail;
    var a := SkipSpace(data, off);
    SkipSpaceStable(data, tail, off);
    var b := if data[a] == '+' as int || data[a] == '-' as int then a + 1 else a;
    if data[b] != '0' as int {
      SkipDigitsOn(data, tail, b, 10);
    } else if b + 1 < |data| && (data[b + 1] == 'x' as int || data[b + 1] == 'X' as int) {
      SkipDigitsOn(data, tail, b + 2, 16);
    } else {
      SkipDigitsOn(data, tail, b + 1, 8);
    }
    assert all[|data|] == tail[0];
  }

  lemma NumberOne(data: bytes, at: nat)
    requires at < |data| && data[at] == ONE && EndsNumber(data[at + 1..])
    ensures ScanInt(data, at) == At(at + 1)
    ensures forall base {:trigger SkipDigits(data, at, base)} :: base in {8, 10, 16} ==>
            SkipDigits(data, at, base) == at + 1
  {
    assert data[at + 1..][0] == data[at + 1];
    forall base {:trigger SkipDigits(data, at, base)} | base in {8, 10, 16}
      ensures SkipDigits(data, at, base) == at + 1
    {
      assert SkipDigits(data, at + 1, base) == at + 1;
    }
    assert SkipSpace(data, at) == at;
    assert SkipDigits(data, at, 10) == at + 1;
  }

  /** A number that has not begun within the data can be "1". */
  lemma ScanIntBegins(data: bytes, tail: bytes, off: nat)
    requires off <= |data| && ScanInt(data, off).Short? && EndsNumber(tail)
    ensures ScanInt(data + [ONE] + tail, off) == At(|data| + 1)
  {
    var more := [ONE] + tail;
    var all := data + more;
    assert data + [ONE] + tail == all;
    assert all[|data|] == ONE && all[|data| + 1] == tail[0];
    var a := SkipSpace(data, off);
    if a == |data| {
      SkipSpaceOn(data, more, off);
    } else {
      SkipSpaceStable(data, more, off);
    }
    NumberOne(all, |data|);
  }

  /** What may follow a version that is still undecided: the rest of it, a space and the code "2". */
  function RestOfStatus(line: bytes): (rest: bytes)
    requires |line| >= 5
    ensures NEWLINE !in rest
  {
    var major := ScanInt(line, 5);
    if major.Short? then [ONE, '.' as int, ONE, SPACE, '2' as int]
    else if major == At(|line|) then ['.' as int, ONE, SPACE, '2' as int]
    else if major.At? && ScanInt(line, major.pos + 1).Short? then [ONE, SPACE, '2' as int]
    else [SPACE, '2' as int]
  }

  /** "1 2" at the place of the minor version. */
  lemma MinorOne(data: bytes, at: nat)
    requires at <= |data| && [ONE, SPACE, '2' as int] <= data[at..]
    ensures ScanInt(data, at) == At(at + 1) && SkipSpace(data, at + 1) == at + 2 && data[at + 2] == '2' as int
  {
    assert data[at] == ONE && data[at + 1] == SPACE && data[at + 2] == data[at..][2];
    NumberOne(data, at);
  }

  lemma MinorContinues(line: bytes, more: bytes, at: nat)
    requires at <= |line|
    requires var minor := ScanInt(line, at);
             && (minor.At? ==> SkipSpace(line, minor.pos) == |line|)
             && !minor.Bad?
             && (if minor.Short? then [ONE, SPACE, '2' as int] else [SPACE, '2' as int]) <= more
    ensures var minor := ScanInt(line + more, at);
            && minor.At? && SkipSpace(line + more, minor.pos) < |line + more|
            && (line + more)[SkipSpace(line + more, minor.pos)] == '2' as int
  {
    hide ScanInt;
    var all := line + more;
    var minor := ScanInt(line, at);
    if minor.Short? {
      assert more == [ONE] + more[1..] && all == line + [ONE] + more[1..];
      ScanIntBegins(line, more[1..], at);
      assert SkipSpace(all, |line| + 1) == |line| + 2;
    } else {
      if minor.pos == |line| {
        ScanIntEnds(line, more, at);
      } else {
        ScanIntStable(line, more, at);
      }
      SkipSpaceOn(line, more, minor.pos);
      assert SkipSpace(all, |line|) == |line| + 1;
    }
  }

  lemma ScanContinues(line: bytes, more: bytes)
    requires |line| >= 5 && !Decided(ScanStatus(line), line)
    requires RestOfStatus(line) <= more
    ensures var scan := ScanStatus(line + more);
            scan.At? && scan.pos < |line + more| && (line + more)[scan.pos] == '2' as int
  {
    hide ScanInt;
    var all := line + more;
    assert all[..5] == line[..5] == HTTP;
    var major := ScanInt(line, 5);
    if major.Short? {
      assert more == [ONE] + more[1..] && all == line + [ONE] + more[1..];
      ScanIntBegins(line, more[1..], 5);
      MinorOne(all, |line| + 2);
    } else if major == At(|line|) {
      ScanIntEnds(line, more, 5);
      MinorOne(all, |line| + 1);
    } else {
      ScanIntStable(line, more, 5);
      MinorContinues(line, more, major.pos + 1);
    }
  }

  /** The end of the status line is found in the bytes up to it and the two after it. */
  lemma {:induction false} LineEndKnown(data: bytes, off: nat)
    requires LineEndFrom(data, off) > 2
    ensures LineEndFrom(data[..LineEndFrom(data, off) + 2], off) == LineEndFrom(data, off)
    decreases |data| - off
  {
    if data[off] != NEWLINE {
      LineEndKnown(data, off + 1);
    } else if off + 2 < |data| && data[off + 2] != SPACE && data[off + 2] != TAB {
    } else {
      LineEndKnown(data, off + 3);
    }
  }

  lemma StatusLineKnown(data: bytes, more: bytes)
    requires LineEnd(data) > 2
    ensures LineEnd(StatusLine(data)) == LineEnd(StatusLine(data) + more) == LineEnd(data)
    ensures StatusLine(StatusLine(data) + more) == StatusLine(data)
    ensures ConclusiveStatus(StatusLine(data) + more) == ConclusiveStatus(data)
  {
    hide ScanStatus, LineEndFrom;
    LineEndKnown(data, 0);
    LineEndStable(StatusLine(data), more, 0);
  }

  lemma {:induction false} FirstNewline(data: bytes, off: nat, at: nat)
    requires off <= at && 2 <= at && at + 2 < |data| && data[at] == NEWLINE
    requires data[at + 2] != SPACE && data[at + 2] != TAB
    requires forall k :: off <= k < at ==> data[k] != NEWLINE
    ensures LineEndFrom(data, off) == at + 1
    decreases at - off
  {
    if off < at {
      FirstNewline(data, off + 1, at);
    }
  }

  /** Two line ends. */
  const BLANK: bytes := [13, NEWLINE, 13, NEWLINE]

  /** One header line made of the two known bytes and the rest of the status, and the empty line. */
  lemma OneHeader(x: byte, y: byte, rest: bytes, used: nat)
    requires x != NEWLINE && NEWLINE !in rest
    ensures FeedHeaders([x, y] + (rest + BLANK), used).Activated?
  {
    var data := [x, y] + (rest + BLANK);
    var at := |rest| + 3;
    if y == NEWLINE {
      assert LineEndFrom(data, 1) == 2;
    } else {
      assert data[at] == NEWLINE && data[at + 2] == NEWLINE;
      forall k | 0 <= k < at ensures data[k] != NEWLINE {
        assert 2 <= k < |rest| + 2 ==> data[k] == rest[k - 2];
      }
      FirstNewline(data, 0, at);
      var last := data[at + 1..];
      assert last == [13, NEWLINE];
      assert LineEndFrom(last, 0) == LineEndFrom(last, 1) == 2;
      HeadersByLine(last);
    }
    HeadersByLine(data);
  }

  /** The bytes that the piece with an inconclusive status line lacks. */
  function Lacking(line: bytes): bytes
    requires |line| >= 5
  {
    RestOfStatus(line) + BLANK
  }

  /** A scan left undecided has seen the five bytes of the protocol's name, and no line end in them. */
  lemma UndecidedBegins(line: bytes)
    requires LineEnd(line) > 2 && |line| == LineEnd(line) + 2 && !Decided(ScanStatus(line), line)
    ensures LineEnd(line) >= 5
  {
    hide ScanInt, LineEndFrom;
    var end := LineEnd(line);
    assert line[end - 1] == NEWLINE;
  }

  lemma NeverRejected(data: bytes, used: nat)
    ensures !FeedHeaders(data, used).Rejected?
  {
  }

  /** With any inconclusive status line the cuts do matter: there is a reply that is rejected when the
      status line comes by itself, with the bytes that end it, and not when all comes at once. Unless
      the first byte after the line is a newline, the reply all at once activates the socket. */
  lemma InconclusiveStatusDepends(data: bytes)
    requires !ConclusiveStatus(data)
    ensures LineEnd(data) >= 5
    ensures var line := StatusLine(data);
            var more := Lacking(line);
            && FeedAll(START, [line, more]).Rejected?
            && !Feed(START, line + more).Rejected?
            && (data[LineEnd(data)] != NEWLINE ==> Feed(START, line + more).Activated?)
  {
    hide LineEndFrom, ScanStatus, FeedHeaders;
    var line := StatusLine(data);
    var end := LineEnd(data);
    LineEndKnown(data, 0);
    assert LineEnd(line) == end;
    UndecidedBegins(line);
    var more := Lacking(line);
    ScanContinues(line, more);
    LineEndStable(line, more, 0);
    assert [] + line == line && [] + (line + more) == line + more;
    assert Feed(START, line).Rejected?;
    Settled(Feed(START, line), [more]);
    assert [line, more][1..] == [more];
    var x, y := data[end], data[end + 1];
    assert (line + more)[end..] == [x, y] + more;
    NeverRejected([x, y] + more, end);
    if x != NEWLINE {
      OneHeader(x, y, RestOfStatus(line), end);
    }
  }

  /** The exact condition: a complete status line and what follows it are judged alike in two pieces
      and in one, whatever follows, if and only if the line is conclusive. */
  lemma ConclusiveExactly(data: bytes)
    requires LineEnd(data) > 2
    ensures var line := StatusLine(data);
            ConclusiveStatus(data) <==>
            forall more: bytes :: FeedAll(START, [line, more]).Rejected? <==> Feed(START, line + more).Rejected?
  {
    hide LineEndFrom, ScanStatus, Feed, FeedAll, ConclusiveStatus;
    var line := StatusLine(data);
    if ConclusiveStatus(data) {
      forall more: bytes ensures FeedAll(START, [line, more]).Rejected? <==> Feed(START, line + more).Rejected? {
        StatusLineKnown(data, more);
        assert [line, more][1..] == [more];
        assert Join([line, more]) == line + Join([more]) && Join([more]) == more + Join([]);
        assert Join([line, more]) == line + more;
        CutsDoNotMatter([line, more]);
      }
    } else {
      InconclusiveStatusDepends(data);
      var more := Lacking(line);
      assert FeedAll(START, [line, more]).Rejected? && !Feed(START, line + more).Rejected?;
    }
  }
}
