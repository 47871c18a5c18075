/**
 * The SOCKS server behind dynamic port forwarding (PORTFWD.C).
 *
 * `Receive` and its helpers describe what the source does with one network read, byte by byte.
 * `Reference` says, without any state machine, what a whole client stream means.
 * The theorems connect the two for every stream and every way of cutting it into reads.
 */
module SocksServer {
  import opened Bytes
  import DottedQuads

  /** Size of the `hostname` field, which doubles as the protocol buffer. */
  const HOSTNAME_SIZE := 264

  // Values of the `dynamic` field.
  const PLAIN := 0            // no SOCKS exchange (any more)
  const FIRST := 1            // no byte seen yet
  const SOCKS4_REQUEST := 0x4000
  const SOCKS4A_NAME := 0x4001
  const SOCKS5_METHODS := 0x5000
  const SOCKS5_REQUEST := 0x5001

  const REFUSED4: bytes := [0, 91, 0, 0, 0, 0, 0, 0]

  /** What the server asks the SSH connection to open. */
  datatype Request = Request(host: bytes, port: nat)

  /** The SOCKS exchange: where it stands and what the server has written in it.
      `dynamic` and `buf` are the source's `dynamic` and `hostname[..port]`. */
  datatype Talk =
    | Going(dynamic: int, buf: bytes, written: bytes)
    | Refused(written: bytes)
    | Complete(request: Request, written: bytes)

  const FRESH := Going(FIRST, [], [])

  function Major(dynamic: int): int {
    dynamic / 4096
  }

  predicate Is4A(h: bytes)
    requires |h| >= 8
  {
    h[4] == 0 && h[5] == 0 && h[6] == 0 && h[7] != 0
  }

  function Granted4(h: bytes): bytes
    requires |h| >= 8
  {
    [0, 90] + h[2..8]
  }

  function Reply5(code: byte): bytes {
    [5, code, 0, 1, 0, 0, 0, 0, 0, 0]
  }

  function Step4(dynamic: int, h: bytes, w: bytes): Talk
    requires |h| >= 1
  {
    if |h| < 2 then Going(dynamic, h, w)
    else if h[1] != 1 then Refused(w + REFUSED4)
    else if |h| <= 8 || h[|h| - 1] != 0 then Going(dynamic, h, w)
    else if Is4A(h) then
      if dynamic == SOCKS4_REQUEST then Going(SOCKS4A_NAME, h[..8], w)
      else Complete(Request(CString(h[8..]), Word(h[2], h[3])), w + Granted4(h))
    else Complete(Request(DottedQuad(h[4..8]), Word(h[2], h[3])), w + Granted4(h))
  }

  function Method(offered: bytes): byte {
    if 0 in offered then 0 else 0xFF
  }

  function AddressLength(h: bytes): nat
    requires |h| >= 6
  {
    if h[3] == 1 then 4 else if h[3] == 4 then 16 else if h[3] == 3 then 1 + h[4] as int else 0
  }

  function Step5Methods(h: bytes, w: bytes): Talk
    requires |h| >= 1
  {
    if |h| < 2 || |h| < 2 + h[1] as int then Going(SOCKS5_METHODS, h, w)
    else Going(SOCKS5_REQUEST, [], w + [5, Method(h[2..2 + h[1] as int])])
  }

  function Step5Request(h: bytes, w: bytes): Talk {
    if |h| < 6 || |h| < 6 + AddressLength(h) then Going(SOCKS5_REQUEST, h, w)
    else if h[1] != 1 || h[2] != 0 then Refused(w + Reply5(1))
    else
      var alen := AddressLength(h);
      var port := Word(h[4 + alen], h[5 + alen]);
      if h[3] == 1 then Complete(Request(DottedQuad(h[4..8]), port), w + Reply5(0))
      else if h[3] == 3 then Complete(Request(CString(h[5..4 + alen]), port), w + Reply5(0))
      else Refused(w + Reply5(8))
  }

  function Interpretation5(dynamic: int, h: bytes, w: bytes): Talk
    requires |h| >= 1
  {
    if dynamic == SOCKS5_METHODS then Step5Methods(h, w)
    else if dynamic == SOCKS5_REQUEST then Step5Request(h, w)
    else Refused(w)
  }

  /** What the buffer amounts to once a byte has been added. */
  function Interpretation(t: Talk): Talk
    requires t.Going? && |t.buf| >= 1
  {
    var h := t.buf;
    if (t.dynamic == FIRST || Major(t.dynamic) == 4) && h[0] == 4 then
      Step4(if t.dynamic == FIRST then SOCKS4_REQUEST else t.dynamic, h, t.written)
    else if (t.dynamic == FIRST || Major(t.dynamic) == 5) && h[0] == 5 then
      Interpretation5(if t.dynamic == FIRST then SOCKS5_METHODS else t.dynamic, h, t.written)
    else Refused(t.written)
  }

  /** One turn of the loop over received bytes. */
  function Step(t: Talk, b: byte): Talk
    requires t.Going?
  {
    if |t.buf| >= HOSTNAME_SIZE then
      Refused(if Major(t.dynamic) == 4 then t.written + REFUSED4 else t.written)
    else
      Interpretation(t.(buf := t.buf + [b]))
  }

  /** The loop over one read: it stops at the end of the data, at a refusal, or when a request is
      complete. The second component is what was not consumed. */
  function Converse(t: Talk, data: bytes): (Talk, bytes)
    decreases |data|
  {
    if data == [] || !t.Going? then (t, data) else Converse(Step(t, data[0]), data[1..])
  }

  // -------------------------------------------------------------------------------------------
  // What a client stream means
  // -------------------------------------------------------------------------------------------

  /** Meaning of everything a client has sent so far: the state of the exchange, and how many
      bytes the exchange took. */
  datatype Meaning = Meaning(talk: Talk, used: nat)

  /** A SOCKS4 request is an 8-byte header and a user ID ending in NUL; with an address 0.0.0.x,
      x nonzero, a host name ending in NUL follows. User ID and name must each fit behind the
      header in the buffer. */
  function Reference4(s: bytes): Meaning
    requires |s| >= 1
  {
    if |s| < 2 then Meaning(Going(SOCKS4_REQUEST, s, []), |s|)
    else if s[1] != 1 then Meaning(Refused(REFUSED4), 2)
    else if |s| <= 8 then Meaning(Going(SOCKS4_REQUEST, s, []), |s|)
    else
      var t := FirstNul(s, 8);
      if t >= HOSTNAME_SIZE && |s| > HOSTNAME_SIZE then Meaning(Refused(REFUSED4), HOSTNAME_SIZE + 1)
      else if t == |s| then Meaning(Going(SOCKS4_REQUEST, s, []), |s|)
      else if Is4A(s) then Reference4A(s[..8], s[t + 1..], t + 1)
      else Meaning(Complete(Request(DottedQuad(s[4..8]), Word(s[2], s[3])), Granted4(s)), t + 1)
  }

  /** The host name part, found `used` bytes into the stream. */
  function Reference4A(header: bytes, rest: bytes, used: nat): Meaning
    requires |header| == 8
  {
    var u := FirstNul(rest, 0);
    if u >= HOSTNAME_SIZE - 8 && |rest| > HOSTNAME_SIZE - 8 then
      Meaning(Refused(REFUSED4), used + HOSTNAME_SIZE - 7)
    else if u == |rest| then Meaning(Going(SOCKS4A_NAME, header + rest, []), used + |rest|)
    else Meaning(Complete(Request(rest[..u], Word(header[2], header[3])), Granted4(header)), used + u + 1)
  }

  /** A SOCKS5 client sends a counted list of methods, then one request (RFC 1928, 3 and 4). */
  function Reference5(s: bytes): Meaning
    requires |s| >= 1
  {
    if |s| < 2 || |s| < 2 + s[1] as int then Meaning(Going(SOCKS5_METHODS, s, []), |s|)
    else
      var n := 2 + s[1] as int;
      Reference5Request(s[n..], [5, Method(s[2..n])], n)
  }

  /** The request, found `used` bytes into the stream, after the reply `m` to the methods. */
  function Reference5Request(r: bytes, m: bytes, used: nat): Meaning {
    if r == [] then Meaning(Going(SOCKS5_REQUEST, [], m), used)
    else if r[0] != 5 then Meaning(Refused(m), used + 1)
    else if |r| < 6 || |r| < 6 + AddressLength(r) then Meaning(Going(SOCKS5_REQUEST, r, m), used + |r|)
    else
      var alen := AddressLength(r);
      var port := Word(r[4 + alen], r[5 + alen]);
      Meaning(
        if r[1] != 1 || r[2] != 0 then Refused(m + Reply5(1))
        else if r[3] == 1 then Complete(Request(DottedQuad(r[4..8]), port), m + Reply5(0))
        else if r[3] == 3 then Complete(Request(CString(r[5..4 + alen]), port), m + Reply5(0))
        else Refused(m + Reply5(8)),
        used + 6 + alen)
  }

  function Reference(s: bytes): Meaning {
    if s == [] then Meaning(FRESH, 0)
    else if s[0] == 4 then Reference4(s)
    else if s[0] == 5 then Reference5(s)
    else Meaning(Refused([]), 1)
  }

  /** Which connection a client asks for, by the positions of its bytes: an IPv4 address is given to SSH as
      a text that reads as these four bytes, and the port is big-endian. */
  lemma AddressRequested(s: bytes)
    requires Reference(s).talk.Complete?
    ensures var r := Reference(s).talk.request;
            && |s| >= 9
            && (s[0] == 4 ==>
                  r.port == 256 * s[2] as int + s[3] as int && (!Is4A(s) ==> DottedQuads.Reads(r.host, s[4..8])))
            && (s[0] == 5 ==>
                  && |s| >= 2 + s[1] as int + 7
                  && var q := s[2 + s[1] as int..];
                     && (q[3] == 1 ==>
                           && |q| >= 10 && r.port == 256 * q[8] as int + q[9] as int
                           && DottedQuads.Reads(r.host, q[4..8]))
                     && (q[3] != 1 ==> q[3] == 3))
  {
    hide FirstNul, DottedQuad, CString, DottedQuads.Reads;
    if s[0] == 4 {
      DottedQuads.DottedQuadReads(DottedQuad(s[4..8]), s[4..8]);
    } else {
      var q := s[2 + s[1] as int..];
      if q[3] == 1 {
        DottedQuads.DottedQuadReads(DottedQuad(q[4..8]), q[4..8]);
      }
    }
  }

  // -------------------------------------------------------------------------------------------
  // The byte-at-a-time server computes that meaning
  // -------------------------------------------------------------------------------------------

  lemma FirstNulSnoc(s: bytes, from: nat, b: byte)
    requires from <= |s|
    requires FirstNul(s, from) == |s|
    ensures FirstNul(s + [b], from) == if b == 0 then |s| else |s| + 1
  {
    FirstNulIs(s + [b], from, if b == 0 then |s| else |s| + 1);
  }

  /** One more byte moves an unfinished exchange to the meaning of the longer stream. */
  ghost predicate StepAgrees(s: bytes, b: byte) {
    var m := Reference(s);
    m.talk.Going? ==> Reference(s + [b]) == Meaning(Step(m.talk, b), |s| + 1)
  }

  lemma StepFirst(b: byte)
    ensures StepAgrees([], b)
  {
    assert [] + [b] == [b];
  }

  lemma StepUserId(s: bytes, b: byte)
    requires Reference(s).talk.Going? && Reference(s).talk.dynamic == SOCKS4_REQUEST
    ensures StepAgrees(s, b)
  {
    hide DottedQuad, CString;
    var t := s + [b];
    assert t[0] == 4 && [] + REFUSED4 == REFUSED4;
    if |t| > 8 && s[1] == 1 {
      if |s| > 8 {
        FirstNulSnoc(s, 8, b);
      } else {
        FirstNulIs(t, 8, if b == 0 then 8 else 9);
      }
      assert t[|t|..] == [] && t[..8] + [] == t[..8];
      assert [] + Granted4(t) == Granted4(t);
    }
  }

  lemma NameGrows(h: bytes, used: nat)
    requires |h| > 8 && h[1] == 1 && Is4A(h)
    requires FirstNul(h[8..|h| - 1], 0) == |h| - 9 <= HOSTNAME_SIZE - 8
    ensures Reference4A(h[..8], h[8..], used)
            == Meaning(if |h| > HOSTNAME_SIZE then Refused(REFUSED4) else Step4(SOCKS4A_NAME, h, []), used + |h| - 8)
  {
    var name := h[8..];
    assert h[8..|h| - 1] + [h[|h| - 1]] == name;
    FirstNulSnoc(h[8..|h| - 1], 0, h[|h| - 1]);
    assert h[..8] + name == h;
    assert [] + Granted4(h) == Granted4(h[..8]);
  }

  predicate HasUserId(s: bytes, t: nat) {
    && |s| > 8 && s[0] == 4 && s[1] == 1 && Is4A(s)
    && t == FirstNul(s, 8) < |s| && t < HOSTNAME_SIZE
  }

  lemma NameMeaning(s: bytes, t: nat)
    requires HasUserId(s, t)
    ensures Reference(s) == Reference4A(s[..8], s[t + 1..], t + 1)
  {
  }

  lemma StepInName(buf: bytes, b: byte)
    requires |buf| >= 8 && buf[0] == 4
    ensures Step(Going(SOCKS4A_NAME, buf, []), b)
            == if |buf| >= HOSTNAME_SIZE then Refused(REFUSED4) else Step4(SOCKS4A_NAME, buf + [b], [])
  {
    assert [] + REFUSED4 == REFUSED4;
  }

  lemma StepName(s: bytes, b: byte, t: nat)
    requires HasUserId(s, t) && FirstNul(s[t + 1..], 0) == |s| - t - 1 <= HOSTNAME_SIZE - 8
    ensures StepAgrees(s, b)
  {
    var u, buf := s + [b], s[..8] + s[t + 1..];
    var h := buf + [b];
    FirstNulIs(u, 8, t);
    NameMeaning(s, t);
    NameMeaning(u, t);
    assert h[8..|h| - 1] == s[t + 1..] && h[8..] == u[t + 1..] && h[..8] == u[..8];
    NameGrows(h, t + 1);
    StepInName(buf, b);
  }

  lemma StepMethods(s: bytes, b: byte)
    requires Reference(s).talk.Going? && Reference(s).talk.dynamic == SOCKS5_METHODS
    ensures StepAgrees(s, b)
  {
    var t := s + [b];
    if |t| >= 2 && |t| >= 2 + t[1] as int {
      assert |t| == 2 + t[1] as int;
      assert t[|t|..] == [];
      assert [] + [5, Method(t[2..|t|])] == [5, Method(t[2..|t|])];
    }
  }

  lemma RequestGrows(r: bytes, m: bytes, used: nat, b: byte)
    requires r != [] ==> r[0] == 5
    requires |r| < 6 || |r| < 6 + AddressLength(r)
    ensures (r + [b])[0] == 5 ==>
              Reference5Request(r + [b], m, used) == Meaning(Step5Request(r + [b], m), used + |r| + 1)
    ensures (r + [b])[0] != 5 ==> Reference5Request(r + [b], m, used) == Meaning(Refused(m), used + 1)
  {
    var h := r + [b];
    if |h| >= 6 && |h| >= 6 + AddressLength(h) {
      assert |h| == 6 + AddressLength(h);
    }
  }

  lemma PastMethods(s: bytes, b: byte)
    requires Reference(s).talk.Going? && Reference(s).talk.dynamic == SOCKS5_REQUEST
    ensures |s| >= 2 && |s| >= 2 + s[1] as int
    ensures var n := 2 + s[1] as int;
            var m := [5, Method(s[2..n])];
            && Reference(s) == Reference5Request(s[n..], m, n)
            && Reference(s + [b]) == Reference5Request(s[n..] + [b], m, n)
  {
    hide Reference5Request, FirstNul;
    var n := 2 + s[1] as int;
    assert (s + [b])[n..] == s[n..] + [b] && (s + [b])[2..n] == s[2..n];
  }

  lemma StepInRequest(r: bytes, m: bytes, b: byte)
    ensures Step(Going(SOCKS5_REQUEST, r, m), b)
            == if |r| >= HOSTNAME_SIZE then Refused(m)
               else if (r + [b])[0] == 5 then Step5Request(r + [b], m) else Refused(m)
  {
  }

  lemma RequestGoing(r: bytes, m: bytes, used: nat)
    requires Reference5Request(r, m, used).talk.Going?
    ensures Reference5Request(r, m, used).talk == Going(SOCKS5_REQUEST, r, m)
    ensures (r != [] ==> r[0] == 5) && (|r| < 6 || |r| < 6 + AddressLength(r)) && |r| < HOSTNAME_SIZE
  {
  }

  lemma StepRequest(s: bytes, b: byte)
    requires Reference(s).talk.Going? && Reference(s).talk.dynamic == SOCKS5_REQUEST
    ensures StepAgrees(s, b)
  {
    hide Step5Request, Reference5Request, Reference, Step;
    PastMethods(s, b);
    var n := 2 + s[1] as int;
    var m := [5, Method(s[2..n])];
    RequestGoing(s[n..], m, n);
    RequestGrows(s[n..], m, n, b);
    StepInRequest(s[n..], m, b);
  }

  lemma StepMatches(s: bytes, b: byte)
    ensures StepAgrees(s, b)
  {
    var t := Reference(s).talk;
    if s == [] { StepFirst(b); }
    else if t.Going? {
      if t.dynamic == SOCKS4_REQUEST { StepUserId(s, b); }
      else if t.dynamic == SOCKS4A_NAME { StepName(s, b, FirstNul(s, 8)); }
      else if t.dynamic == SOCKS5_METHODS { StepMethods(s, b); }
      else { StepRequest(s, b); }
    }
  }

  /** A finished exchange has used at most what arrived, and later bytes do not reopen it. */
  lemma FinalStays4(s: bytes, b: byte)
    requires s != [] && s[0] == 4 && !Reference(s).talk.Going?
    ensures Reference(s + [b]) == Reference(s) && Reference(s).used <= |s|
  {
    var u := s + [b];
    if s[1] == 1 {
      var t := FirstNul(s, 8);
      if t < HOSTNAME_SIZE {
        FirstNulIs(u, 8, t);
        assert u[..8] == s[..8] && u[t + 1..] == s[t + 1..] + [b];
        if Is4A(s) {
          NameMeaning(s, t);
          NameMeaning(u, t);
          FinalStaysName(s[..8], s[t + 1..], t + 1, b);
        }
      } else {
        assert forall k :: 8 <= k < HOSTNAME_SIZE ==> u[k] == s[k] != 0;
        assert FirstNul(u, 8) >= HOSTNAME_SIZE;
      }
    }
  }

  lemma FinalStaysName(header: bytes, rest: bytes, used: nat, b: byte)
    requires |header| == 8 && !Reference4A(header, rest, used).talk.Going?
    ensures Reference4A(header, rest + [b], used) == Reference4A(header, rest, used)
    ensures Reference4A(header, rest, used).used <= used + |rest|
  {
    var u := FirstNul(rest, 0);
    if u < |rest| {
      FirstNulIs(rest + [b], 0, u);
      assert (rest + [b])[..u] == rest[..u];
    } else {
      FirstNulSnoc(rest, 0, b);
    }
  }

  lemma FinalStays5(s: bytes, b: byte)
    requires s != [] && s[0] == 5 && !Reference(s).talk.Going?
    ensures Reference(s + [b]) == Reference(s) && Reference(s).used <= |s|
  {
    var n := 2 + s[1] as int;
    var r := s[n..];
    assert (s + [b])[n..] == r + [b] && (s + [b])[2..n] == s[2..n];
    FinalStaysRequest(r, [5, Method(s[2..n])], n, b);
  }

  lemma FinalStaysRequest(r: bytes, m: bytes, used: nat, b: byte)
    requires !Reference5Request(r, m, used).talk.Going?
    ensures Reference5Request(r + [b], m, used) == Reference5Request(r, m, used)
    ensures Reference5Request(r, m, used).used <= used + |r|
  {
    if r[0] == 5 {
      assert AddressLength(r + [b]) == AddressLength(r);
      if r[3] == 1 {
        assert (r + [b])[4..8] == r[4..8];
      } else if r[3] == 3 {
        assert (r + [b])[5..4 + AddressLength(r)] == r[5..4 + AddressLength(r)];
      }
    }
  }

  /** Reading one more byte, whatever the state of the exchange. */
  lemma ReferenceGrows(s: bytes, b: byte)
    ensures var m := Reference(s);
            Reference(s + [b]) == if m.talk.Going? then Meaning(Step(m.talk, b), |s| + 1) else m
    ensures Reference(s).used <= |s| && (Reference(s).talk.Going? ==> Reference(s).used == |s|)
  {
    if Reference(s).talk.Going? {
      StepMatches(s, b);
    } else if s[0] == 4 {
      FinalStays4(s, b);
    } else if s[0] == 5 {
      FinalStays5(s, b);
    }
  }

  /** The loop gives up exactly where the meaning of the stream says so, and has then consumed
      exactly the bytes of the exchange. */
  lemma {:induction false} ConverseIsReference(s: bytes)
    ensures Reference(s).used <= |s|
    ensures Converse(FRESH, s) == (Reference(s).talk, s[Reference(s).used..])
  {
    if s == [] {
      assert s[0..] == [];
    } else {
      var s', b := s[..|s| - 1], s[|s| - 1];
      assert s == s' + [b];
      ConverseIsReference(s');
      ConverseSplit(FRESH, s', [b]);
      ReferenceGrows(s', b);
      var m := Reference(s');
      if m.talk.Going? {
        assert [b][1..] == [] == s[|s|..];
        assert Converse(m.talk, [b]) == Converse(Step(m.talk, b), []);
      } else {
        assert s[m.used..] == s'[m.used..] + [b];
      }
    }
  }

  /** Cutting the data in two changes nothing. */
  lemma {:induction false} ConverseSplit(t: Talk, a: bytes, b: bytes)
    ensures var (u, rest) := Converse(t, a);
            Converse(t, a + b) == if u.Going? then Converse(u, b) else (u, rest + b)
    ensures Converse(t, a).0.Going? ==> Converse(t, a).1 == []
    decreases |a|
  {
    if a == [] {
      assert a + b == b;
    } else if t.Going? {
      assert (a + b)[1..] == a[1..] + b;
      ConverseSplit(Step(t, a[0]), a[1..], b);
    }
  }

  /** Reading a stream in one go or continuing an unfinished exchange is the same. */
  lemma Continue(s: bytes, data: bytes)
    requires Reference(s).talk.Going?
    ensures var m := Reference(s + data);
            && m.used <= |s + data|
            && Converse(Reference(s).talk, data) == (m.talk, (s + data)[m.used..])
  {
    ConverseIsReference(s);
    ConverseIsReference(s + data);
    ConverseSplit(FRESH, s, data);
  }

  /** Once finished, an exchange means the same however much follows. */
  lemma {:induction false} Final(s: bytes, data: bytes)
    requires !Reference(s).talk.Going?
    ensures Reference(s + data) == Reference(s) && Reference(s).used <= |s|
    decreases |data|
  {
    ReferenceGrows(s, 0);
    if data == [] {
      assert s + data == s;
    } else {
      ReferenceGrows(s, data[0]);
      assert s + data == (s + [data[0]]) + data[1..];
      Final(s + [data[0]], data[1..]);
    }
  }

  /** Nothing the server keeps from the client outgrows the `hostname` field. */
  lemma BufferInRange(s: bytes)
    requires Reference(s).talk.Going?
    ensures |Reference(s).talk.buf| <= HOSTNAME_SIZE
    ensures Reference(s).talk.dynamic in {FIRST, SOCKS4_REQUEST, SOCKS4A_NAME, SOCKS5_METHODS, SOCKS5_REQUEST}
  {
  }

  // -------------------------------------------------------------------------------------------
  // Whole sessions
  // -------------------------------------------------------------------------------------------

  datatype Server = Server(
    talk: Talk,
    closed: bool,             // pfd_close was called
    request: Option<Request>, // argument of ssh_send_port_open
    frozen: bool,
    ready: bool,
    throttled: bool,
    overridden: bool,
    held: bytes,              // the leftover buffer, flushed by pfd_confirm
    channel: bytes,           // everything handed to sshfwd_write
    sent: bytes)              // everything pfd_send wrote after the exchange

  /** A connection freshly accepted on a dynamic listener. */
  const ACCEPTED := Server(FRESH, false, None, false, false, false, false, [], [], [])

  /** Everything the server wrote to its socket. */
  function Written(s: Server): bytes {
    s.talk.written + s.sent
  }

  /** Data for an established connection; `backlog` is sshfwd_write asking for a pause. */
  function Forward(s: Server, data: bytes, backlog: bool): Server {
    if !s.ready then s
    else s.(channel := s.channel + data, throttled := s.throttled || backlog, frozen := s.frozen || backlog)
  }

  /** One call of the receive handler; `grant` tells whether a channel could be allocated. */
  function Receive(s: Server, data: bytes, grant: bool, backlog: bool): Server {
    if !s.talk.Going? then Forward(s, data, backlog)
    else
      var (t, rest) := Converse(s.talk, data);
      match t
      case Going(_, _, _) => s.(talk := t)
      case Refused(_) => s.(talk := t, closed := true)
      case Complete(request, _) =>
        if grant then Forward(s.(talk := t, request := Some(request), frozen := true, held := rest), rest, backlog)
        else s.(talk := t, closed := true)
  }

  function Confirm(s: Server): Server {
    s.(ready := true, frozen := false, channel := s.channel + s.held, held := [])
  }

  function Unthrottle(s: Server): Server {
    s.(throttled := false, frozen := s.overridden)
  }

  function OverrideThrottle(s: Server, enable: bool): Server {
    s.(overridden := enable, frozen := s.throttled || enable)
  }

  function Send(s: Server, data: bytes): Server {
    s.(sent := s.sent + data)
  }

  /** What can happen to a forwarded connection. */
  datatype Event =
    | Read(data: bytes, grant: bool, backlog: bool)
    | Confirmed
    | Drained
    | Override(enable: bool)
    | FromRemote(data: bytes)
    | HungUp

  /** The network layer reads only from a socket that is not frozen; the SSH layer confirms a channel
      once, and throttles or feeds only confirmed channels (SSH.C:2223, 3705, 5738, 5888-5895, 6136). */
  predicate Enabled(s: Server, e: Event) {
    && !s.closed
    && match e
       case Read(_, _, _) => !s.frozen
       case Confirmed => s.request.Some? && !s.ready
       case Drained => s.ready
       case Override(_) => s.ready
       case FromRemote(_) => s.ready
       case HungUp => true
  }

  function Apply(s: Server, e: Event): Server {
    match e
    case Read(data, grant, backlog) => Receive(s, data, grant, backlog)
    case Confirmed => Confirm(s)
    case Drained => Unthrottle(s)
    case Override(enable) => OverrideThrottle(s, enable)
    case FromRemote(data) => Send(s, data)
    case HungUp => s.(closed := true)
  }

  predicate Allowed(s: Server, events: seq<Event>)
    decreases |events|
  {
    events == [] || (Enabled(s, events[0]) && Allowed(Apply(s, events[0]), events[1..]))
  }

  function Run(s: Server, events: seq<Event>): Server
    decreases |events|
  {
    if events == [] then s else Run(Apply(s, events[0]), events[1..])
  }

  /** All client bytes read in a run, in order. */
  function Stream(events: seq<Event>): bytes {
    if events == [] then []
    else Piece(events[0]) + Stream(events[1..])
  }

  /** All bytes the remote side sent back in a run. */
  function Returned(events: seq<Event>): bytes {
    if events == [] then []
    else Back(events[0]) + Returned(events[1..])
  }

  /** How a server that has read `stream` must stand. Only the stream matters, not its cuts. */
  ghost predicate Faithful(s: Server, stream: bytes) {
    var m := Reference(stream);
    && m.used <= |stream|
    && s.talk == m.talk
    && (m.talk.Refused? ==> s.closed)
    && (s.ready ==> s.request.Some? && s.held == [])
    && (s.request.None? ==> s.channel == [] && s.held == [])
    && (s.request.None? ==> m.talk.Going? || s.closed)
    && (m.talk.Going? ==> !s.frozen)
    && (!s.ready ==> s.sent == [] && s.channel == [])
    && (s.request.Some? ==>
          && m.talk.Complete? && s.request.value == m.talk.request
          && s.channel + s.held == stream[m.used..]
          && (s.ready || s.frozen))
  }

  lemma ReadKeepsFaith(s: Server, stream: bytes, data: bytes, grant: bool, backlog: bool)
    requires Faithful(s, stream) && Enabled(s, Read(data, grant, backlog))
    ensures Faithful(Receive(s, data, grant, backlog), stream + data)
  {
    hide Reference, Converse;
    if s.talk.Going? {
      Continue(stream, data);
      var used := Reference(stream + data).used;
      assert [] + (stream + data)[used..] == (stream + data)[used..];
    } else {
      Final(stream, data);
      var used := Reference(stream).used;
      assert (stream + data)[used..] == stream[used..] + data;
      assert s.channel + data + [] == s.channel + [] + data;
    }
  }

  function Back(e: Event): bytes {
    if e.FromRemote? then e.data else []
  }

  function Piece(e: Event): bytes {
    if e.Read? then e.data else []
  }

  lemma ApplyKeepsFaith(s: Server, stream: bytes, e: Event)
    requires Faithful(s, stream) && Enabled(s, e)
    ensures Faithful(Apply(s, e), stream + Piece(e))
  {
    if e.Read? {
      ReadKeepsFaith(s, stream, e.data, e.grant, e.backlog);
    } else {
      assert stream + [] == stream;
      assert s.channel + s.held + [] == s.channel + s.held;
    }
  }

  lemma {:induction false} RunKeepsFaith(s: Server, stream: bytes, events: seq<Event>)
    requires Faithful(s, stream) && Allowed(s, events)
    ensures Faithful(Run(s, events), stream + Stream(events))
    decreases |events|
  {
    hide Reference, Apply, Piece;
    if events == [] {
      assert stream + [] == stream;
    } else {
      ApplyKeepsFaith(s, stream, events[0]);
      RunKeepsFaith(Apply(s, events[0]), stream + Piece(events[0]), events[1..]);
      assert stream + Piece(events[0]) + Stream(events[1..]) == stream + Stream(events);
    }
  }

  lemma ApplyReturns(s: Server, e: Event)
    ensures Apply(s, e).sent == s.sent + Back(e)
  {
    assert s.sent + [] == s.sent;
  }

  lemma {:induction false} RunReturns(s: Server, events: seq<Event>)
    ensures Run(s, events).sent == s.sent + Returned(events)
    decreases |events|
  {
    hide Receive, Apply, Back;
    if events == [] {
      assert s.sent + [] == s.sent;
    } else {
      ApplyReturns(s, events[0]);
      RunReturns(Apply(s, events[0]), events[1..]);
      assert s.sent + Back(events[0]) + Returned(events[1..]) == s.sent + Returned(events);
    }
  }

  /** No channel is refused and nobody hangs up. */
  predicate Undisturbed(events: seq<Event>) {
    HungUp !in events && forall k :: 0 <= k < |events| && events[k].Read? ==> events[k].grant
  }

  /** Everything that closes a connection: a refusal, the peer, or a request for which no channel was to be had. */
  ghost predicate ClosedWithCause(s: Server, hungUp: bool) {
    s.closed <==> s.talk.Refused? || hungUp || (s.talk.Complete? && s.request.None?)
  }

  lemma ApplyClosesWithCause(s: Server, e: Event, hungUp: bool)
    requires ClosedWithCause(s, hungUp) && Enabled(s, e)
    requires s.request.Some? ==> s.talk.Complete?
    ensures ClosedWithCause(Apply(s, e), hungUp || e.HungUp?)
    ensures Apply(s, e).request.Some? ==> Apply(s, e).talk.Complete?
    ensures e.Read? && e.grant && (s.talk.Complete? ==> s.request.Some?) ==>
              (Apply(s, e).talk.Complete? ==> Apply(s, e).request.Some?)
  {
    hide Converse;
  }

  lemma {:induction false} RunClosesWithCause(s: Server, events: seq<Event>, hungUp: bool)
    requires ClosedWithCause(s, hungUp) && Allowed(s, events)
    requires s.request.Some? ==> s.talk.Complete?
    ensures ClosedWithCause(Run(s, events), hungUp || HungUp in events)
    ensures Undisturbed(events) && (s.talk.Complete? ==> s.request.Some?) ==>
              (Run(s, events).talk.Complete? ==> Run(s, events).request.Some?)
    decreases |events|
  {
    if events != [] {
      ApplyClosesWithCause(s, events[0], hungUp);
      RunClosesWithCause(Apply(s, events[0]), events[1..], hungUp || events[0].HungUp?);
      assert events == [events[0]] + events[1..];
      hide ClosedWithCause, Receive;
    }
  }

  /** Over every run of a forwarded connection: the replies, the request or the refusal are those the
      client's stream means, and every byte after the request is in the channel or in the leftover
      buffer, once and in order - all in the channel once the connection is confirmed. It is closed if
      and only if the stream was refused, somebody hung up, or no channel was to be had. */
  lemma EverySession(events: seq<Event>)
    requires Allowed(ACCEPTED, events)
    ensures var s, stream := Run(ACCEPTED, events), Stream(events);
            var m := Reference(stream);
            && m.used <= |stream|
            && Written(s) == m.talk.written + Returned(events)
            && (s.closed <==> m.talk.Refused? || HungUp in events || (m.talk.Complete? && s.request.None?))
            && (m.talk.Refused? ==> s.request == None)
            && (s.request.Some? ==>
                  && m.talk == Complete(s.request.value, m.talk.written)
                  && s.channel + s.held == stream[m.used..]
                  && (s.ready ==> s.channel == stream[m.used..]))
            && (s.request == None ==> s.channel == [])
            && (m.talk.Complete? && (!s.closed || Undisturbed(events)) ==> s.request == Some(m.talk.request))
  {
    RunKeepsFaith(ACCEPTED, [], events);
    RunReturns(ACCEPTED, events);
    RunClosesWithCause(ACCEPTED, events, false);
    assert [] + Stream(events) == Stream(events);
    var s := Run(ACCEPTED, events);
    assert [] + Returned(events) == Returned(events);
    assert s.channel + [] == s.channel;
  }

  /** How the bytes are cut into reads is invisible: two runs that have read the same stream have written
      the same replies; and undisturbed, or with neither of them closed, they agree on everything else too:
      whether they are closed, what they asked for, and every byte after the request. */
  lemma CutsDoNotMatter(a: seq<Event>, b: seq<Event>)
    requires Allowed(ACCEPTED, a) && Allowed(ACCEPTED, b) && Stream(a) == Stream(b)
    ensures var s, t := Run(ACCEPTED, a), Run(ACCEPTED, b);
            && s.talk == t.talk
            && ((Undisturbed(a) && Undisturbed(b)) || (!s.closed && !t.closed) ==>
                  && s.closed == t.closed && s.request == t.request
                  && s.channel + s.held == t.channel + t.held)
  {
    EverySession(a);
    EverySession(b);
    RunKeepsFaith(ACCEPTED, [], a);
    RunKeepsFaith(ACCEPTED, [], b);
    assert [] + Stream(a) == Stream(a);
  }

  // -------------------------------------------------------------------------------------------
  // Flow control
  // -------------------------------------------------------------------------------------------

  /** Whether, after these events of a connected session, the SSH side still wants a pause: the last read
      that met a backlog has not been followed by word that the channel drained. `ready` says whether the
      channel was confirmed by then. */
  predicate Paused(events: seq<Event>)
    decreases |events|
  {
    events != [] &&
    var (before, last) := (events[..|events| - 1], events[|events| - 1]);
    if last.Drained? then false
    else Paused(before) || (last.Read? && last.backlog && Confirmed in before)
  }

  /** The override in force. */
  predicate Overridden(events: seq<Event>)
    decreases |events|
  {
    events != [] &&
    var last := events[|events| - 1];
    if last.Override? then last.enable else Overridden(events[..|events| - 1])
  }

  /** How frozen a server must be after some events. */
  ghost predicate Paces(s: Server, events: seq<Event>) {
    && (s.ready <==> Confirmed in events)
    && s.throttled == Paused(events) && s.overridden == Overridden(events)
    && s.frozen == (if s.ready then Paused(events) || Overridden(events) else s.request.Some?)
    && (!s.ready ==> !s.throttled && !s.overridden) && (s.ready ==> s.request.Some? && !s.talk.Going?)
    && (s.request.Some? ==> !s.talk.Going?) && (!s.talk.Going? && s.request.None? ==> s.closed)
  }

  lemma ApplyPaces(s: Server, events: seq<Event>, e: Event)
    requires Paces(s, events) && Enabled(s, e)
    ensures Paces(Apply(s, e), events + [e])
  {
    hide Converse, Paused, Overridden;
    PausedSnoc(events, e);
  }

  lemma PausedSnoc(events: seq<Event>, e: Event)
    ensures Paused(events + [e]) <==>
              if e.Drained? then false else Paused(events) || (e.Read? && e.backlog && Confirmed in events)
    ensures Overridden(events + [e]) == if e.Override? then e.enable else Overridden(events)
    ensures Confirmed in events + [e] <==> Confirmed in events || e == Confirmed
  {
    var all := events + [e];
    assert all[..|all| - 1] == events && all[|all| - 1] == e;
  }

  lemma {:induction false} RunPaces(s: Server, before: seq<Event>, events: seq<Event>)
    requires Paces(s, before) && Allowed(s, events)
    ensures Paces(Run(s, events), before + events)
    decreases |events|
  {
    hide Paces, Enabled, Apply;
    if events == [] {
      assert before + events == before;
    } else {
      ApplyPaces(s, before, events[0]);
      RunPaces(Apply(s, events[0]), before + [events[0]], events[1..]);
      assert before + [events[0]] + events[1..] == before + events;
    }
  }

  /** Over every run, the socket is frozen exactly while the request has not been answered, the SSH side
      wants a pause, or an override is in force. */
  lemma FrozenExactly(events: seq<Event>)
    requires Allowed(ACCEPTED, events)
    ensures var s := Run(ACCEPTED, events);
            s.frozen <==> if Confirmed in events then Paused(events) || Overridden(events) else s.request.Some?
  {
    RunPaces(ACCEPTED, [], events);
    assert [] + events == events;
  }

  /** Why `Enabled` lets the SSH layer touch only confirmed channels: lifting a throttle before the
      confirmation, which the runs above exclude, unfreezes the socket, and what is then read is lost. */
  lemma EarlyOverrideLosesBytes(s: Server, data: bytes)
    requires s.request.Some? && !s.ready && !s.throttled && s.talk.Complete?
    ensures var t := Receive(OverrideThrottle(s, false), data, true, false);
            !OverrideThrottle(s, false).frozen && Confirm(t).channel == s.channel + s.held
  {
  }
}
