/**
 * Well-formed replies to HTTP CONNECT, by their text: a status line, header lines, an empty line. Whatever
 * such a reply says and however it is cut, the first digit of its code decides.
 */
module HttpReplies {
  import opened Bytes
  import opened HttpConnect

  const CRLF: bytes := [13, NEWLINE]
  const POINT: byte := 46

  /** A decimal number as a version has it. */
  predicate Numeral(d: bytes) {
    d != [] && (forall k :: 0 <= k < |d| ==> 48 <= d[k] < 58) && (d[0] == 48 ==> |d| == 1)
  }

  /** "HTTP/", a version, a space. */
  function Version(major: bytes, minor: bytes): bytes {
    HTTP + major + [POINT] + minor + [SPACE]
  }

  /** Code and reason: not empty, no space in front, one line. */
  predicate Outcome(t: bytes) {
    t != [] && !IsSpace(t[0]) && NEWLINE !in t
  }

  /** A header line that get_line_end does not take for the continuation of the one before. As it looks one
      byte too far, that depends on the second byte of the line. */
  predicate HeaderLine(h: bytes) {
    h != [] && NEWLINE !in h && (|h| > 1 ==> h[1] != SPACE && h[1] != TAB)
  }

  predicate HeaderLines(lines: seq<bytes>) {
    forall i :: 0 <= i < |lines| ==> HeaderLine(lines[i])
  }

  /** The header lines and the empty line. */
  function HeaderText(lines: seq<bytes>): (t: bytes)
    ensures |t| >= 2
  {
    if lines == [] then CRLF else lines[0] + CRLF + HeaderText(lines[1..])
  }

  function ReplyText(major: bytes, minor: bytes, outcome: bytes, lines: seq<bytes>): bytes {
    Version(major, minor) + outcome + CRLF + HeaderText(lines)
  }

  /** What stands after a line end so that it counts as one. */
  predicate Follows(next: bytes) {
    |next| >= 2 && next[1] != SPACE && next[1] != TAB
  }

  lemma LineEnds(line: bytes, next: bytes)
    requires line != [] && NEWLINE !in line && Follows(next)
    ensures LineEnd(line + CRLF + next) == |line| + 2
  {
    var data, at := line + CRLF + next, |line| + 1;
    assert data[at] == NEWLINE && data[at + 2] == next[1];
    forall k | 0 <= k < at ensures data[k] != NEWLINE {
      assert k < |line| ==> data[k] == line[k];
    }
    FirstNewline(data, 0, at);
  }

  lemma HeadersFollow(lines: seq<bytes>, rest: bytes)
    requires HeaderLines(lines)
    ensures Follows(HeaderText(lines) + rest)
  {
    if lines != [] {
      var h := lines[0];
      var t := HeaderText(lines) + rest;
      assert HeaderLine(h);
      assert t[1] == if |h| > 1 then h[1] else 13;
    }
  }

  lemma EmptyLine(rest: bytes)
    ensures LineEnd(CRLF + rest) == 2
  {
    var data := CRLF + rest;
    assert data[0] == 13 && data[1] == NEWLINE;
    assert LineEndFrom(data, 1) == 2;
  }

  lemma NextHeader(h: bytes, later: bytes, rest: bytes)
    ensures var data := h + CRLF + later + rest;
            data == h + CRLF + (later + rest) && data[|h| + 2..] == later + rest
  {
    Joins(h + CRLF, later, rest);
    AfterFront(h + CRLF, later + rest);
  }

  lemma AfterFront(a: bytes, b: bytes)
    ensures (a + b)[|a|..] == b
  {
  }

  lemma {:induction false} HeadersConsumed(lines: seq<bytes>, rest: bytes)
    requires HeaderLines(lines)
    ensures Headers(HeaderText(lines) + rest) == (|HeaderText(lines)|, true)
    decreases |lines|
  {
    HeadersByLine(HeaderText(lines) + rest);
    hide Headers, LineEndFrom;
    if lines == [] {
      EmptyLine(rest);
    } else {
      var h, later := lines[0], HeaderText(lines[1..]);
      assert HeaderLine(h);
      HeadersFollow(lines[1..], rest);
      LineEnds(h, later + rest);
      HeadersConsumed(lines[1..], rest);
      hide HeaderText, HeaderLines;
      NextHeader(h, later, rest);
      assert HeaderText(lines) == h + CRLF + later by { HeaderTextIs(lines); }
    }
  }

  lemma HeaderTextIs(lines: seq<bytes>)
    requires lines != []
    ensures HeaderText(lines) == lines[0] + CRLF + HeaderText(lines[1..])
  {
  }

  lemma {:induction false} AllDigits(data: bytes, off: nat, to: nat, base: nat)
    requires off <= to < |data| && forall k :: off <= k < to ==> IsDigit(data[k], base)
    requires !IsDigit(data[to], base)
    ensures SkipDigits(data, off, base) == to
    decreases |data| - off
  {
    if off < to {
      AllDigits(data, off + 1, to, base);
    }
  }

  lemma NumeralScanned(data: bytes, at: nat, d: bytes)
    requires Numeral(d) && at + |d| < |data| && data[at..at + |d|] == d
    requires data[at + |d|] == POINT || data[at + |d|] == SPACE
    ensures ScanInt(data, at) == At(at + |d|)
  {
    assert forall k :: at <= k < at + |d| ==> data[k] == data[at..at + |d|][k - at];
    assert data[at] == d[0];
    if d[0] == 48 {
      AllDigits(data, at + 1, at + 1, 8);
    } else {
      AllDigits(data, at, at + |d|, 10);
    }
    hide SkipDigits;
  }

  /** The scan ends at the code. */
  lemma StatusScanned(major: bytes, minor: bytes, more: bytes)
    requires Numeral(major) && Numeral(minor) && more != [] && !IsSpace(more[0])
    ensures ScanStatus(Version(major, minor) + more) == At(|Version(major, minor)|)
  {
    var data, dot := Version(major, minor) + more, 5 + |major|;
    var end := dot + 1 + |minor|;
    VersionParts(major, minor, more);
    NumeralScanned(data, 5, major);
    NumeralScanned(data, dot + 1, minor);
    hide ScanInt, Version, Numeral;
    assert SkipSpace(data, end) == SkipSpace(data, end + 1) == end + 1;
  }

  lemma VersionParts(major: bytes, minor: bytes, more: bytes)
    requires more != []
    ensures var data, dot := Version(major, minor) + more, 5 + |major|;
            var end := dot + 1 + |minor|;
            && |Version(major, minor)| == end + 1 < |data| && data[..5] == HTTP && data[5..dot] == major
            && data[dot] == POINT && data[dot + 1..end] == minor && data[end] == SPACE && data[end + 1] == more[0]
  {
  }

  lemma VersionInLine(major: bytes, minor: bytes)
    requires Numeral(major) && Numeral(minor)
    ensures NEWLINE !in Version(major, minor)
  {
    assert NEWLINE !in HTTP;
  }

  lemma StatusFeeds(data: bytes, pos: nat, n: nat)
    requires LineEnd(data) > 2 && ScanStatus(data) == At(pos) && pos < |data|
    requires Headers(data[LineEnd(data)..]) == (n, true)
    ensures LineEnd(data) + n <= |data|
    ensures Feed(START, data) ==
              if data[pos] == '2' as int then Activated(LineEnd(data) + n, data[LineEnd(data) + n..])
              else Rejected(LineEnd(data))
  {
    hide LineEndFrom, ScanStatus, Headers;
    assert [] + data == data;
    var end := LineEnd(data);
    assert data[end..][n..] == data[end + n..];
  }

  lemma IsConclusive(data: bytes, pos: nat)
    requires LineEnd(data) > 2 && pos < LineEnd(data) && ScanStatus(data[..LineEnd(data) + 2]) == At(pos)
    ensures ConclusiveStatus(data)
  {
    hide LineEndFrom, ScanStatus;
  }

  function Whole(version: bytes, outcome: bytes, headers: bytes, rest: bytes): bytes {
    version + outcome + CRLF + headers + rest
  }

  lemma WholeIs(version: bytes, outcome: bytes, headers: bytes, rest: bytes)
    ensures Whole(version, outcome, headers, rest) == version + outcome + CRLF + headers + rest
  {
  }

  lemma WholeByLine(version: bytes, outcome: bytes, headers: bytes, rest: bytes)
    ensures Whole(version, outcome, headers, rest) == version + outcome + CRLF + (headers + rest)
  {
  }

  lemma WholeByCode(version: bytes, outcome: bytes, headers: bytes, rest: bytes)
    ensures Whole(version, outcome, headers, rest) == version + (outcome + CRLF + (headers + rest))
  {
  }

  lemma WholeCut(version: bytes, outcome: bytes, headers: bytes, rest: bytes)
    requires |headers| >= 2
    ensures Whole(version, outcome, headers, rest)[..|version + outcome| + 4]
            == version + (outcome + CRLF + headers[..2])
  {
  }

  lemma WholeTail(version: bytes, outcome: bytes, headers: bytes, rest: bytes)
    requires outcome != []
    ensures var data, end := Whole(version, outcome, headers, rest), |version + outcome| + 2;
            && |data| == end + |headers| + |rest|
            && data[|version|] == outcome[0] && data[end..] == headers + rest && data[end + |headers|..] == rest
  {
  }

  /** A well-formed reply in one piece, with data of the connection behind it: a code that begins with 2
      activates the socket after exactly the reply, any other is rejected after the status line. */
  lemma ReplyDecides(major: bytes, minor: bytes, outcome: bytes, lines: seq<bytes>, rest: bytes)
    requires Numeral(major) && Numeral(minor) && Outcome(outcome) && HeaderLines(lines)
    ensures var reply := ReplyText(major, minor, outcome, lines);
            && ConclusiveStatus(reply + rest)
            && Feed(START, reply + rest) ==
                 if outcome[0] == '2' as int then Activated(|reply|, rest)
                 else Rejected(|Version(major, minor) + outcome| + 2)
  {
    hide Version, HeaderText, Headers, LineEnd, ScanStatus, Feed, ConclusiveStatus;
    hide Numeral, HeaderLines, Outcome, Whole;
    var version, headers := Version(major, minor), HeaderText(lines);
    var data := Whole(version, outcome, headers, rest);
    assert ReplyText(major, minor, outcome, lines) + rest == data by { WholeIs(version, outcome, headers, rest); }
    hide ReplyText;
    assert outcome != [] by { OutcomeIsLong(outcome); }
    HeadersConsumed(lines, rest);
    LineRead(major, minor, outcome, lines, rest);
    CodeRead(major, minor, outcome, lines, rest);
    WholeTail(version, outcome, headers, rest);
    StatusFeeds(data, |version|, |headers|);
    IsConclusive(data, |version|);
  }

  lemma OutcomeIsLong(outcome: bytes)
    requires Outcome(outcome)
    ensures outcome != []
  {
  }

  lemma LineRead(major: bytes, minor: bytes, outcome: bytes, lines: seq<bytes>, rest: bytes)
    requires Numeral(major) && Numeral(minor) && Outcome(outcome) && HeaderLines(lines)
    ensures var version, headers := Version(major, minor), HeaderText(lines);
            LineEnd(Whole(version, outcome, headers, rest)) == |version + outcome| + 2
  {
    VersionInLine(major, minor);
    HeadersFollow(lines, rest);
    hide HeaderText, LineEndFrom, Numeral, HeaderLines, Whole, Version;
    assert NEWLINE !in Version(major, minor) + outcome;
    LineEnds(Version(major, minor) + outcome, HeaderText(lines) + rest);
    WholeByLine(Version(major, minor), outcome, HeaderText(lines), rest);
  }

  lemma CodeRead(major: bytes, minor: bytes, outcome: bytes, lines: seq<bytes>, rest: bytes)
    requires Numeral(major) && Numeral(minor) && Outcome(outcome)
    ensures var version, headers := Version(major, minor), HeaderText(lines);
            var data, end := Whole(version, outcome, headers, rest), |version + outcome| + 2;
            && end + 2 <= |data| && ScanStatus(data) == ScanStatus(data[..end + 2]) == At(|version|)
  {
    hide HeaderText, ScanStatus, Numeral, Whole, Version;
    var version, headers := Version(major, minor), HeaderText(lines);
    StatusScanned(major, minor, outcome + CRLF + (headers + rest));
    StatusScanned(major, minor, outcome + CRLF + headers[..2]);
    WholeByCode(version, outcome, headers, rest);
    WholeCut(version, outcome, headers, rest);
    WholeTail(version, outcome, headers, rest);
  }

  lemma Joins(a: bytes, b: bytes, c: bytes)
    ensures a + b + c == a + (b + c)
  {
  }

  /** The same in any number of pieces. */
  lemma ReplyDecidesInPieces(major: bytes, minor: bytes, outcome: bytes, lines: seq<bytes>, rest: bytes,
                             pieces: seq<bytes>)
    requires Numeral(major) && Numeral(minor) && Outcome(outcome) && HeaderLines(lines) && pieces != []
    requires Join(pieces) == ReplyText(major, minor, outcome, lines) + rest
    ensures var r, reply := FeedAll(START, pieces), ReplyText(major, minor, outcome, lines);
            if outcome[0] == '2' as int then r.Activated? && r.used == |reply|
            else r.Rejected? && r.used == |Version(major, minor) + outcome| + 2
  {
    hide Feed, FeedAll, ConclusiveStatus, ReplyText, Version, Join;
    ReplyDecides(major, minor, outcome, lines, rest);
    CutsDoNotMatter(pieces);
  }
}
