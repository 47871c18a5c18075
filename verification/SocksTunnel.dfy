/**
 * Both ends of one protocol: the SOCKS client of PROXY.C talking to the SOCKS server of PORTFWD.C.
 *
 * Each direction is a FIFO byte channel. What a side has written is its own log, so a channel is the
 * number of bytes the other side has read from that log; any non-empty piece of what is in flight may
 * arrive at any time, between any calls of the back end and of the SSH layer.
 */
module SocksTunnel {
  import opened Bytes
  import C = ProxySocket
  import S = SocksServer
  import R = ProxyReplies
  import DottedQuads

  // -------------------------------------------------------------------------------------------
  // The joined system
  // -------------------------------------------------------------------------------------------

  /** Configurations the server can serve: no IPv6, no name too long for its buffer, and no SOCKS4
      address of the form 0.0.0.x, which announces a host name instead. */
  predicate Servable(c: C.Config) {
    && Speaks(c) && !c.target.IPv6?
    && (c.kind == C.Socks4 && c.target.Name? ==> |c.target.name| <= 255)
    && (c.kind == C.Socks4 && c.target.IPv4? ==> !Announces4A(c.target.addr))
  }

  /** The client itself gives up on SOCKS4 with an IPv6 address. */
  predicate Speaks(c: C.Config) {
    C.ValidConfig(c) && c.kind != C.Http && (c.kind == C.Socks4 ==> !c.target.IPv6?)
  }

  predicate Announces4A(a: bytes) {
    |a| == 4 && a[0] == 0 && a[1] == 0 && a[2] == 0 && a[3] != 0
  }

  /** The connection the client wants. */
  function Wanted(c: C.Config): S.Request
    requires Servable(c)
  {
    S.Request(if c.target.IPv4? then DottedQuad(c.target.addr) else c.target.name, c.port)
  }

  /** A request for the configured target: its port, and its name or a text that reads as its address. */
  predicate Meets(c: C.Config, r: S.Request) {
    && r.port == c.port
    && match c.target
       case IPv4(a) => DottedQuads.Reads(r.host, a)
       case IPv6(_) => false
       case Name(n) => r.host == n
  }

  /** There is one such request. */
  lemma WantedMeets(c: C.Config, r: S.Request)
    requires Servable(c)
    ensures Meets(c, r) <==> r == Wanted(c)
  {
    if c.target.IPv4? {
      DottedQuads.DottedQuadReads(r.host, c.target.addr);
    }
  }

  datatype System = System(
    client: C.Proxy,
    server: S.Server,
    up: nat,     // bytes of the client's wire the server has read
    down: nat)   // bytes of the server's output the client has received

  /** The stream the server reads: urgent octets travel out of band. */
  function Inline(wire: seq<C.Octet>): bytes
    decreases |wire|
  {
    if wire == [] then []
    else (if wire[0].urgent then [] else [wire[0].value]) + Inline(wire[1..])
  }

  function Upstream(s: System): bytes {
    Inline(s.client.wire)
  }

  function Downstream(s: System): bytes {
    S.Written(s.server)
  }

  datatype Event =
    | ToServer(n: nat, backlog: bool)
    | ToClient(n: nat)
    | Client(call: C.Call)
    | ClientSent
    | Server(event: S.Event)

  predicate Enabled(s: System, e: Event) {
    match e
    case ToServer(n, backlog) =>
      0 < n <= |Upstream(s)| - s.up && S.Enabled(s.server, S.Read(Upstream(s)[s.up..s.up + n], true, backlog))
    case ToClient(n) => 0 < n <= |Downstream(s)| - s.down && !s.client.subFrozen
    case Client(_) => true
    case ClientSent => true
    case Server(event) => !event.Read? && !event.HungUp? && S.Enabled(s.server, event)
  }

  function Apply(s: System, e: Event, env: C.Env): System
    requires Enabled(s, e)
  {
    match e
    case ToServer(n, backlog) =>
      s.(server := S.Receive(s.server, Upstream(s)[s.up..s.up + n], true, backlog), up := s.up + n)
    case ToClient(n) =>
      s.(client := C.Receive(s.client, Downstream(s)[s.down..s.down + n], env), down := s.down + n)
    case Client(call) => s.(client := C.CallOn(s.client, call, env))
    case ClientSent => s.(client := C.Sent(s.client, env))
    case Server(event) => s.(server := S.Apply(s.server, event))
  }

  function Begin(c: C.Config): System
    requires Servable(c)
  {
    System(C.Connect(c), S.ACCEPTED, 0, 0)
  }

  predicate Allowed(s: System, events: seq<Event>, env: C.Env)
    decreases |events|
  {
    events == [] || (Enabled(s, events[0]) && Allowed(Apply(s, events[0], env), events[1..], env))
  }

  function Run(s: System, events: seq<Event>, env: C.Env): System
    requires Allowed(s, events, env)
    decreases |events|
  {
    if events == [] then s else Run(Apply(s, events[0], env), events[1..], env)
  }

  // -------------------------------------------------------------------------------------------
  // What the client says, as the server reads it
  // -------------------------------------------------------------------------------------------

  /** Everything the client says before it goes on to pass data. */
  function Hello(c: C.Config): bytes
    requires Speaks(c)
  {
    if c.kind == C.Socks4 then C.Request4(c) else C.Greeting5(c) + C.Request5(c)
  }

  function FirstHello(c: C.Config): bytes
    requires Servable(c)
  {
    if c.kind == C.Socks4 then C.Request4(c) else C.Greeting5(c)
  }

  /** Everything the server answers before it passes data. */
  function Welcome(c: C.Config): bytes
    requires Servable(c)
  {
    if c.kind == C.Socks4 then S.Granted4(C.Request4(c)) else [5, 0] + S.Reply5(0)
  }

  /** What it has answered after reading `n` bytes. */
  function Answer(c: C.Config, n: nat): bytes
    requires Servable(c)
  {
    if n >= |Hello(c)| then Welcome(c)
    else if c.kind == C.Socks5 && n >= |C.Greeting5(c)| then [5, 0]
    else []
  }

  /** The client's stream so far is a prefix of the hello, or the hello and data. */
  predicate OnTrack(c: C.Config, stream: bytes)
    requires Servable(c)
  {
    stream <= Hello(c) || Hello(c) <= stream
  }

  predicate Understood(c: C.Config, stream: bytes)
    requires Servable(c)
  {
    var m := S.Reference(stream);
    && m.talk.written == Answer(c, |stream|)
    && (|stream| < |Hello(c)| ==> m.talk.Going?)
    && (|stream| >= |Hello(c)| ==> m == S.Meaning(S.Complete(Wanted(c), Welcome(c)), |Hello(c)|))
  }

  lemma Request4Header(c: C.Config)
    requires Speaks(c) && c.kind == C.Socks4
    ensures var q := C.Request4(c);
            && |q| >= 9 && q[0] == 4 && q[1] == 1 && Word(q[2], q[3]) == c.port
            && q[4..8] == (if c.target.IPv4? then c.target.addr else [0, 0, 0, 1])
            && q[8..] == c.username + [0] + (if c.target.IPv4? then [] else c.target.name + [0])
  {
  }

  /** A SOCKS4 hello cut within the header or the user ID. */
  lemma HelloInUserId(c: C.Config, stream: bytes)
    requires Servable(c) && c.kind == C.Socks4
    requires stream <= Hello(c) && |stream| <= 8 + |c.username|
    ensures Understood(c, stream)
  {
    hide FirstNul, DottedQuad, C.Request4, CString;
    var q := Hello(c);
    Request4Header(c);
    if |stream| > 8 {
      assert forall k :: 8 <= k < |stream| ==> stream[k] == q[k] == q[8..][k - 8];
      FirstNulIs(stream, 8, |stream|);
    }
  }

  /** The bytes of the name and its NUL, for a SOCKS4 hello with a name. */
  function NameField(c: C.Config): bytes {
    if c.target.Name? then c.target.name + [0] else []
  }

  /** Where things are in a SOCKS4 stream that has got past the user ID. */
  lemma Header4(c: C.Config, stream: bytes)
    requires Speaks(c) && c.kind == C.Socks4 && |stream| >= 8
    requires stream <= Hello(c) || Hello(c) <= stream
    ensures stream[0] == 4 && stream[1] == 1 && Word(stream[2], stream[3]) == c.port
    ensures S.Granted4(stream) == S.Granted4(Hello(c)) == S.Granted4(stream[..8])
    ensures stream[4..8] == if c.target.IPv4? then c.target.addr else [0, 0, 0, 1]
    ensures S.Is4A(stream) <==> c.target.Name? || Announces4A(c.target.addr)
  {
    hide C.Request4;
    var q := Hello(c);
    Request4Header(c);
    assert stream[..8] == q[..8];
    assert forall k :: 0 <= k < 8 ==> stream[k] == q[..8][k];
    assert stream[4..8] == q[4..8];
    assert stream[4] == q[4..8][0] && stream[5] == q[4..8][1] && stream[6] == q[4..8][2] && stream[7] == q[4..8][3];
  }

  lemma HelloEnd(c: C.Config)
    requires Speaks(c) && c.kind == C.Socks4
    ensures |Hello(c)| == 9 + |c.username| + |NameField(c)|
    ensures Hello(c)[8..] == c.username + [0] + NameField(c)
    ensures Hello(c)[9 + |c.username|..] == NameField(c)
  {
    hide C.Request4, NameField;
    Request4Header(c);
    NameFieldIs(c);
    var q, u, tail := Hello(c), c.username, c.username + [0] + NameField(c);
    assert q[8..] == tail;
    assert q[8..][|u| + 1..] == q[9 + |u|..];
  }

  lemma AlikeFrom(stream: bytes, q: bytes, n: nat)
    requires n <= |stream| && n <= |q| && (stream <= q || q <= stream)
    ensures stream[n..] <= q[n..] || q[n..] <= stream[n..]
  {
  }

  lemma Tail4(c: C.Config, stream: bytes)
    requires Speaks(c) && c.kind == C.Socks4 && |stream| > 8 + |c.username|
    requires stream <= Hello(c) || Hello(c) <= stream
    ensures |Hello(c)| == 9 + |c.username| + |NameField(c)|
    ensures FirstNul(stream, 8) == 8 + |c.username|
    ensures var rest := stream[9 + |c.username|..];
            rest <= NameField(c) || NameField(c) <= rest
  {
    hide FirstNul, Hello, NameField;
    var q, u := Hello(c), c.username;
    HelloEnd(c);
    forall k | 0 <= k <= |u| ensures stream[8 + k] == (if k < |u| then u[k] else 0) {
      assert stream[8 + k] == q[8 + k] == q[8..][k];
    }
    FirstNulIs(stream, 8, 8 + |u|);
    AlikeFrom(stream, q, 9 + |u|);
  }

  lemma NameFieldIs(c: C.Config)
    requires !c.target.IPv6?
    ensures NameField(c) == if c.target.IPv4? then [] else c.target.name + [0]
  {
  }

  /** A SOCKS4 hello cut within the host name. */
  lemma HelloInName(c: C.Config, stream: bytes)
    requires Servable(c) && c.kind == C.Socks4 && c.target.Name?
    requires stream <= Hello(c) && 8 + |c.username| < |stream| < |Hello(c)|
    ensures Understood(c, stream)
  {
    hide FirstNul, DottedQuad, CString, Hello;
    Header4(c, stream);
    Tail4(c, stream);
    var rest := stream[9 + |c.username|..];
    FirstNulIs(rest, 0, |rest|);
    S.NameMeaning(stream, 8 + |c.username|);
  }

  /** Before its last byte a SOCKS4 hello is unfinished. */
  lemma UnfinishedHello4(c: C.Config, stream: bytes)
    requires Servable(c) && c.kind == C.Socks4
    requires stream <= Hello(c) && |stream| < |Hello(c)|
    ensures Understood(c, stream)
  {
    hide Understood, C.Request4;
    if |stream| <= 8 + |c.username| {
      HelloInUserId(c, stream);
    } else {
      Request4Header(c);
      HelloInName(c, stream);
    }
  }

  /** With its last byte it asks for the wanted connection. */
  lemma FinishedHello4(c: C.Config, stream: bytes)
    requires Servable(c) && c.kind == C.Socks4 && Hello(c) <= stream
    ensures Understood(c, stream)
  {
    hide FirstNul, DottedQuad, C.Request4;
    Request4Header(c);
    Header4(c, stream);
    Tail4(c, stream);
    if c.target.Name? {
      var name, rest := c.target.name, stream[9 + |c.username|..];
      FirstNulIs(rest, 0, |name|);
      assert rest[..|name|] == name;
      S.NameMeaning(stream, 8 + |c.username|);
    }
  }

  lemma Request5Header(c: C.Config)
    requires Servable(c) && c.kind == C.Socks5
    ensures var r := C.Request5(c);
            && |r| >= 7 && r[0] == 5 && r[1] == 1 && r[2] == 0
            && (c.target.IPv4? ==> r[3] == 1 && |r| == 10 && r[4..8] == c.target.addr)
            && (c.target.Name? ==> r[3] == 3 && r[4] == |c.target.name| && |r| == 7 + |c.target.name|
                                   && r[5..5 + |c.target.name|] == c.target.name)
            && Word(r[|r| - 2], r[|r| - 1]) == c.port
  {
  }

  lemma UnfinishedRequest5(c: C.Config, r: bytes, used: nat)
    requires Servable(c) && c.kind == C.Socks5 && r <= C.Request5(c) && |r| < |C.Request5(c)|
    ensures S.Reference5Request(r, [5, 0], used) == S.Meaning(S.Going(S.SOCKS5_REQUEST, r, [5, 0]), used + |r|)
  {
    Request5Header(c);
    hide C.Request5;
    var q := C.Request5(c);
    assert forall k :: 0 <= k < |r| ==> r[k] == q[k];
  }

  lemma FinishedRequest5(c: C.Config, r: bytes, used: nat)
    requires Servable(c) && c.kind == C.Socks5 && C.Request5(c) <= r
    ensures S.Reference5Request(r, [5, 0], used)
            == S.Meaning(S.Complete(Wanted(c), Welcome(c)), used + |C.Request5(c)|)
  {
    hide C.Request5, DottedQuad, FirstNul;
    var q := C.Request5(c);
    Request5Header(c);
    assert forall k :: 0 <= k < |q| ==> r[k] == q[k];
    if c.target.IPv4? {
      assert r[4..8] == q[4..8];
    } else {
      var name := c.target.name;
      assert r[5..5 + |name|] == q[5..5 + |name|] == name;
      FirstNulIs(name, 0, |name|);
      assert CString(name) == name;
    }
  }

  lemma Hello5Understood(c: C.Config, stream: bytes)
    requires Servable(c) && c.kind == C.Socks5 && OnTrack(c, stream)
    ensures Understood(c, stream)
  {
    hide C.Request5, S.Reference5Request, DottedQuad;
    var g, q := C.Greeting5(c), C.Request5(c);
    assert forall k :: 0 <= k < |stream| && k < |g| ==> stream[k] == Hello(c)[k] == g[k];
    if |stream| >= |g| {
      var r := stream[|g|..];
      assert stream[2..|g|] == g[2..] && 0 in g[2..] by { assert g[2..][0] == 0; }
      assert S.Reference(stream) == S.Reference5Request(r, [5, 0], |g|);
      assert forall k :: 0 <= k < |r| && k < |q| ==> r[k] == stream[|g| + k] == Hello(c)[|g| + k] == q[k];
      if |r| < |q| {
        UnfinishedRequest5(c, r, |g|);
      } else {
        assert r[..|q|] == q;
        FinishedRequest5(c, r, |g|);
      }
    }
  }

  /** The server takes every part of a client's stream for what the client meant. */
  lemma HelloUnderstood(c: C.Config, stream: bytes)
    requires Servable(c) && OnTrack(c, stream)
    ensures Understood(c, stream)
  {
    hide Understood;
    if c.kind == C.Socks5 {
      Hello5Understood(c, stream);
    } else if |stream| < |Hello(c)| {
      UnfinishedHello4(c, stream);
    } else {
      FinishedHello4(c, stream);
    }
  }

  lemma LongName(c: C.Config)
    requires Speaks(c) && c.kind == C.Socks4 && c.target.Name? && |c.target.name| > 255
    ensures S.Reference(Hello(c)).talk == S.Refused(S.REFUSED4)
  {
    hide FirstNul, DottedQuad, C.Request4;
    var q, t := Hello(c), 8 + |c.username|;
    Request4Header(c);
    Header4(c, q);
    Tail4(c, q);
    FirstNulIs(q[t + 1..], 0, |c.target.name|);
    S.NameMeaning(q, t);
  }

  lemma ZeroAddress(c: C.Config)
    requires Speaks(c) && c.kind == C.Socks4 && c.target.IPv4? && Announces4A(c.target.addr)
    ensures S.Reference(Hello(c)).talk.Going? && S.Reference(Hello(c)).talk.written == []
  {
    hide FirstNul, DottedQuad, C.Request4;
    var q, t := Hello(c), 8 + |c.username|;
    Request4Header(c);
    Header4(c, q);
    Tail4(c, q);
    assert q[t + 1..] == [];
    FirstNulIs([], 0, 0);
    S.NameMeaning(q, t);
  }

  lemma IPv6Hello(c: C.Config)
    requires Speaks(c) && c.kind == C.Socks5 && c.target.IPv6?
    ensures S.Reference(Hello(c)).talk == S.Refused([5, 0] + S.Reply5(8))
  {
    hide DottedQuad, C.Request5;
    var g, r, q := C.Greeting5(c), C.Request5(c), Hello(c);
    assert |r| == 22 && r[0] == 5 && r[1] == 1 && r[2] == 0 && r[3] == 4 by { IPv6Request(c); }
    assert forall k :: 0 <= k < |g| ==> q[k] == g[k];
    assert q[|g|..] == r;
  }

  lemma IPv6Request(c: C.Config)
    requires Speaks(c) && c.kind == C.Socks5 && c.target.IPv6?
    ensures var r := C.Request5(c);
            |r| == 22 && r[0] == 5 && r[1] == 1 && r[2] == 0 && r[3] == 4
  {
  }

  /** The server grants a client's whole hello exactly when the configuration is servable, and then
      asks for the connection the client wants. */
  lemma GrantedIffServable(c: C.Config)
    requires Speaks(c)
    ensures S.Reference(Hello(c)).talk.Complete? <==> Servable(c)
    ensures Servable(c) ==> Meets(c, S.Reference(Hello(c)).talk.request)
  {
    hide S.Reference, Meets, Wanted;
    if Servable(c) {
      HelloUnderstood(c, Hello(c));
      WantedMeets(c, Wanted(c));
    } else if c.target.IPv6? {
      IPv6Hello(c);
    } else if c.target.Name? {
      LongName(c);
    } else {
      ZeroAddress(c);
    }
  }

  lemma WelcomeUnderstood(c: C.ProxyConfig)
    requires Servable(c)
    ensures R.Means(c, Welcome(c)) == R.Meaning(R.Granted, |Welcome(c)|, Hello(c))
  {
    hide C.Greeting5, C.Request5;
    if c.kind == C.Socks4 {
      Request4Header(c);
      hide C.Request4;
      assert [0, 90] <= Welcome(c) && |Welcome(c)| == 8;
    } else {
      assert Welcome(c) == [5, 0, 5, 0, 0, 1, 0, 0, 0, 0, 0, 0];
    }
  }

  /** What the server answers to a whole hello is what the client needs to hear: a grant that it takes
      whole and that calls for just this hello, or a refusal with its reason; a SOCKS4 address of the form
      0.0.0.x leaves both sides waiting. */
  lemma AnswerUnderstood(c: C.ProxyConfig)
    requires Speaks(c)
    ensures var w := S.Reference(Hello(c)).talk.written;
            R.Means(c, w) ==
              if Servable(c) then R.Meaning(R.Granted, |w|, Hello(c))
              else if c.kind == C.Socks5 then R.Meaning(R.Failed(C.ConnectFailed(8)), 2, Hello(c))
              else R.Meaning(if c.target.Name? then R.Failed(C.RequestRejected) else R.Pending, 0, Hello(c))
  {
    hide S.Reference, C.Request4, C.Greeting5, C.Request5;
    if Servable(c) {
      HelloUnderstood(c, Hello(c));
      WelcomeUnderstood(c);
    } else if c.target.IPv6? {
      IPv6Hello(c);
      assert [5, 0] + S.Reply5(8) == [5, 0, 5, 8, 0, 1, 0, 0, 0, 0, 0, 0];
    } else if c.target.Name? {
      LongName(c);
      assert S.REFUSED4[1] == 91 && [0, 90][1] != 91;
    } else {
      ZeroAddress(c);
    }
  }

  // -------------------------------------------------------------------------------------------
  // The streams
  // -------------------------------------------------------------------------------------------

  lemma {:induction false} InlineSplit(a: seq<C.Octet>, b: seq<C.Octet>)
    ensures Inline(a + b) == Inline(a) + Inline(b)
    decreases |a|
  {
    if a == [] {
      assert a + b == b;
    } else {
      assert (a + b)[1..] == a[1..] + b;
      InlineSplit(a[1..], b);
    }
  }

  lemma {:induction false} InlineMark(urgent: bool, data: bytes)
    ensures Inline(C.Mark(urgent, data)) == if urgent then [] else data
    decreases |data|
  {
    var m := C.Mark(urgent, data);
    if data != [] {
      assert m[1..] == C.Mark(urgent, data[1..]);
      InlineMark(urgent, data[1..]);
    }
  }

  lemma {:induction false} InlineItems(calls: seq<C.Call>)
    ensures Inline(C.Items(calls)) == C.Plain(calls)
    decreases |calls|
  {
    if calls != [] {
      var init, last := calls[..|calls| - 1], calls[|calls| - 1];
      assert calls == init + [last];
      C.ItemsSplit(init, [last]);
      assert C.Items([last]) == C.Item(last) + C.Items([]) == C.Item(last);
      InlineItems(init);
      InlineSplit(C.Items(init), C.Item(last));
      if last.Write? { InlineMark(false, last.data); }
      if last.WriteUrgent? { InlineMark(true, last.data); }
    }
  }

  /** The client's wire carries the hello, and once active the data still wanted from before the
      activation and all data written since. */
  lemma UpstreamContents(p: C.Proxy, received: bytes)
    requires C.Sound(p, received)
    ensures Inline(p.wire) == if C.Active(p) then p.hello + (C.PlainLeft(p.early) + C.Plain(p.late)) else p.hello
  {
    hide C.UrgentLeft, C.PlainLeft, C.Items, C.Plain, Inline, C.Mark;
    var h, u, w, l := C.Mark(false, p.hello), C.Mark(true, C.UrgentLeft(p.early)),
        C.Mark(false, C.PlainLeft(p.early)), C.Items(p.late);
    InlineMark(false, p.hello);
    if C.Active(p) {
      InlineMark(true, C.UrgentLeft(p.early));
      InlineMark(false, C.PlainLeft(p.early));
      InlineItems(p.late);
      InlineSplit(h, u);
      InlineSplit(h + u, w);
      InlineSplit(h + u + w, l);
    }
  }

  // -------------------------------------------------------------------------------------------
  // The invariant
  // -------------------------------------------------------------------------------------------

  /** Where the client's negotiation can be, and that it is waiting for more. */
  ghost predicate Phase(c: C.Config, p: C.Proxy)
    requires Servable(c)
  {
    && p.cfg == c && p.errors == []
    && if C.Active(p) then p.hello == Hello(c) && p.eaten == |Welcome(c)|
       else if p.state == 1 then
         p.hello == FirstHello(c) && p.eaten == 0 && |p.input| < (if c.kind == C.Socks4 then 8 else 2)
       else p.state == 3 && c.kind == C.Socks5 && p.hello == Hello(c) && p.eaten == 2 && |p.input| < 10
  }

  ghost predicate Inv(s: System, c: C.Config) {
    && Servable(c) && Phase(c, s.client)
    && !s.server.closed
    && s.up <= |Upstream(s)| && S.Faithful(s.server, Upstream(s)[..s.up])
    && s.down <= |Downstream(s)| && C.Sound(s.client, Downstream(s)[..s.down])
  }

  /** What the client has put on its wire keeps the server on track. */
  lemma UpstreamOnTrack(s: System, c: C.Config, n: nat)
    requires Servable(c) && Phase(c, s.client) && s.down <= |Downstream(s)|
             && C.Sound(s.client, Downstream(s)[..s.down])
    requires n <= |Upstream(s)|
    ensures OnTrack(c, Upstream(s)[..n])
  {
    hide C.PlainLeft, C.Plain, Inline, C.Greeting5, C.Request4, C.Request5, C.Sound, Welcome;
    UpstreamContents(s.client, Downstream(s)[..s.down]);
    assert FirstHello(c) <= Hello(c);
  }

  /** What the server has written is the part of the welcome due so far, and then data. */
  lemma DownstreamContents(s: System, c: C.Config)
    requires Inv(s, c)
    ensures Downstream(s) == Answer(c, s.up) + s.server.sent
    ensures s.server.talk.Going? <==> s.up < |Hello(c)|
    ensures s.up < |Hello(c)| ==> s.server.sent == []
    ensures s.up >= |Hello(c)| ==>
              s.server.request == Some(Wanted(c)) && S.Reference(Upstream(s)[..s.up]).used == |Hello(c)|
  {
    hide S.Reference, Answer, Inline, C.Sound, Hello, Phase;
    UpstreamOnTrack(s, c, s.up);
    HelloUnderstood(c, Upstream(s)[..s.up]);
  }

  // -------------------------------------------------------------------------------------------
  // The server's steps
  // -------------------------------------------------------------------------------------------

  lemma AnswerGrows(c: C.Config, m: nat, n: nat)
    requires Servable(c) && m <= n
    ensures Answer(c, m) <= Answer(c, n)
    ensures m >= |Hello(c)| ==> Answer(c, m) == Answer(c, n) == Welcome(c)
  {
    hide Hello, C.Greeting5, C.Request4;
    assert c.kind == C.Socks5 ==> [5, 0] <= Welcome(c);
  }

  /** A server step that keeps faith, stays open and only adds to the output keeps the invariant. */
  lemma ServerStep(s: System, c: C.Config, t: System)
    requires Inv(s, c) && t.client == s.client && t.down == s.down
    requires s.up <= t.up <= |Upstream(s)| && S.Faithful(t.server, Upstream(s)[..t.up])
    requires !t.server.closed && s.server.sent <= t.server.sent
    requires s.server.sent != t.server.sent ==> s.up == t.up
    ensures Inv(t, c)
  {
    hide S.Reference, Answer, Inline, C.Sound, Hello, Phase;
    DownstreamContents(s, c);
    AnswerGrows(c, s.up, t.up);
    UpstreamOnTrack(s, c, t.up);
    HelloUnderstood(c, Upstream(s)[..t.up]);
    assert Downstream(s) <= Downstream(t);
    assert Downstream(t)[..t.down] == Downstream(s)[..s.down];
  }

  lemma ReadStays(s: S.Server, stream: bytes, data: bytes, backlog: bool)
    requires S.Faithful(s, stream) && S.Enabled(s, S.Read(data, true, backlog))
    requires !S.Reference(stream + data).talk.Refused?
    ensures var t := S.Receive(s, data, true, backlog);
            !t.closed && t.sent == s.sent && S.Faithful(t, stream + data)
  {
    hide S.Reference;
    S.ReadKeepsFaith(s, stream, data, true, backlog);
  }

  lemma ServerReads(s: System, c: C.Config, n: nat, backlog: bool, env: C.Env)
    requires Inv(s, c) && Enabled(s, ToServer(n, backlog))
    ensures Inv(Apply(s, ToServer(n, backlog), env), c)
  {
    hide S.Reference, S.Receive, S.Faithful, Inline, C.Sound, Hello, Phase;
    var stream, data := Upstream(s)[..s.up], Upstream(s)[s.up..s.up + n];
    assert stream + data == Upstream(s)[..s.up + n];
    UpstreamOnTrack(s, c, s.up + n);
    HelloUnderstood(c, stream + data);
    ReadStays(s.server, stream, data, backlog);
    ServerStep(s, c, Apply(s, ToServer(n, backlog), env));
  }

  lemma ServerMoves(s: System, c: C.Config, e: S.Event, env: C.Env)
    requires Inv(s, c) && Enabled(s, Server(e))
    ensures Inv(Apply(s, Server(e), env), c)
  {
    hide S.Reference, S.Faithful, Inline, C.Sound, Hello, Phase;
    var stream := Upstream(s)[..s.up];
    S.ApplyKeepsFaith(s.server, stream, e);
    assert stream + [] == stream;
    ServerStep(s, c, Apply(s, Server(e), env));
  }

  // -------------------------------------------------------------------------------------------
  // The client's steps
  // -------------------------------------------------------------------------------------------

  /** A client step that is sound, in phase and only adds to the wire keeps the invariant. */
  lemma ClientStep(s: System, c: C.Config, t: System)
    requires Inv(s, c) && t.server == s.server && t.up == s.up
    requires s.down <= t.down <= |Downstream(s)| && C.Sound(t.client, Downstream(s)[..t.down])
    requires Phase(c, t.client) && s.client.wire <= t.client.wire
    ensures Inv(t, c)
  {
    hide S.Reference, S.Faithful, Inline, C.Sound, Hello, Phase;
    var more := t.client.wire[|s.client.wire|..];
    assert t.client.wire == s.client.wire + more;
    InlineSplit(s.client.wire, more);
    assert Upstream(t)[..t.up] == Upstream(s)[..s.up];
  }

  lemma KeptStays(c: C.Config, p: C.Proxy, q: C.Proxy)
    requires Servable(c) && Phase(c, p) && C.Active(p) && C.Kept(p, q)
    ensures Phase(c, q) && p.wire <= q.wire
  {
    hide C.Items, Hello, Welcome;
  }

  lemma ClientCalled(s: System, c: C.Config, call: C.Call, env: C.Env)
    requires Inv(s, c)
    ensures Inv(Apply(s, Client(call), env), c)
  {
    hide C.Sound, C.CallActive, Hello, FirstHello, Welcome, S.Faithful;
    var p := s.client;
    C.ApplySound(p, Downstream(s)[..s.down], C.Called(call), env);
    assert Downstream(s)[..s.down] + [] == Downstream(s)[..s.down];
    if C.Active(p) {
      KeptStays(c, p, C.CallActive(p, call, env));
    }
    ClientStep(s, c, Apply(s, Client(call), env));
  }

  lemma ClientTold(s: System, c: C.Config, env: C.Env)
    requires Inv(s, c)
    ensures Inv(Apply(s, ClientSent, env), c)
  {
    hide C.Sound, C.RunCalls, Hello, FirstHello, Welcome, S.Faithful;
    var p := s.client;
    C.SentSound(p, Downstream(s)[..s.down], env);
    if C.Active(p) {
      var p1 := p.(turns := p.turns + 1);
      KeptStays(c, p1, C.RunCalls(p1, env.react(p.turns), env));
    }
    ClientStep(s, c, Apply(s, ClientSent, env));
  }

  /** When the last byte of the welcome has been consumed the client is active, and in phase. */
  lemma ActivatesInPhase(c: C.Config, p: C.Proxy, env: C.Env)
    requires Servable(c) && p.cfg == c && p.errors == [] && p.hello == Hello(c) && p.eaten == |Welcome(c)|
    ensures Phase(c, C.Activate(p, env)) && p.wire <= C.Activate(p, env).wire
  {
    hide C.Activate, Hello, Welcome;
    var q := C.Opened(p);
    assert q.wire == p.wire + (C.Mark(true, p.urgent) + C.Mark(false, p.output));
    KeptStays(c, q, C.Activate(p, env));
  }

  lemma Socks4Hears(c: C.Config, p: C.Proxy, env: C.Env)
    requires Servable(c) && c.kind == C.Socks4 && p.cfg == c && p.errors == [] && p.state == 1
    requires p.hello == Hello(c) && p.eaten == 0
    requires p.input <= Welcome(c) || Welcome(c) <= p.input
    ensures var q := C.NegotiateReceive(p, env);
            Phase(c, q) && p.wire <= q.wire
  {
    hide C.Activate;
    assert |Welcome(c)| == 8 && Welcome(c)[0] == 0 && Welcome(c)[1] == 90;
    if |p.input| >= 8 {
      ActivatesInPhase(c, C.Consume(p, 8), env);
    }
  }

  lemma Socks5HearsMethod(c: C.Config, p: C.Proxy, env: C.Env)
    requires Servable(c) && c.kind == C.Socks5 && p.cfg == c && p.errors == [] && p.state == 1
    requires p.hello == FirstHello(c) && p.eaten == 0
    requires p.input <= [5, 0]
    ensures var q := C.NegotiateReceive(p, env);
            Phase(c, q) && p.wire <= q.wire
  {
    hide C.Request5, C.Greeting5;
  }

  lemma Socks5HearsReply(c: C.Config, p: C.Proxy, env: C.Env)
    requires Servable(c) && c.kind == C.Socks5 && p.cfg == c && p.errors == [] && p.state == 3
    requires p.hello == Hello(c) && p.eaten == 2
    requires p.input <= S.Reply5(0) || S.Reply5(0) <= p.input
    ensures var q := C.NegotiateReceive(p, env);
            Phase(c, q) && p.wire <= q.wire
  {
    hide C.Activate, C.Request5, C.Greeting5, Hello;
    if |p.input| >= 5 {
      assert forall k :: 0 <= k < 5 ==> p.input[k] == S.Reply5(0)[k];
      if |p.input| >= 10 {
        ActivatesInPhase(c, C.Consume(p, 10), env);
      }
    }
  }

  /** What the client holds, with new bytes behind it, is the part of the server's output it has not
      consumed. */
  lemma Unconsumed(p: C.Proxy, received: bytes, data: bytes)
    requires C.Sound(p, received) && !C.Active(p)
    ensures p.eaten <= |received| && p.input + data == (received + data)[p.eaten..]
  {
    hide C.SoundInactive;
    assert p.delivered == [] by { InactiveDelivered(p, received); }
    assert [] + p.input == p.input;
    assert (received + data)[p.eaten..] == received[p.eaten..] + data;
  }

  lemma InactiveDelivered(p: C.Proxy, received: bytes)
    requires C.Sound(p, received) && !C.Active(p)
    ensures p.delivered == []
  {
  }

  /** The first half of the server's output that the client can see before it has made its request. */
  lemma FirstAnswer(s: System, c: C.Config)
    requires Inv(s, c) && c.kind == C.Socks5 && s.client.state == 1
    ensures Downstream(s) <= [5, 0]
  {
    hide S.Reference, Inline, C.Sound, S.Faithful, C.Request5, C.Greeting5;
    DownstreamContents(s, c);
    UpstreamContents(s.client, Downstream(s)[..s.down]);
    Request5Header(c);
    assert s.up <= |C.Greeting5(c)| < |Hello(c)|;
  }

  /** The server's output is the start of the welcome, or the welcome and data. */
  lemma WelcomeFirst(s: System, c: C.Config)
    requires Inv(s, c)
    ensures Downstream(s) <= Welcome(c) || Welcome(c) <= Downstream(s)
  {
    hide S.Reference, Inline, C.Sound, S.Faithful, Hello, Welcome, Phase;
    DownstreamContents(s, c);
    AnswerGrows(c, s.up, if s.up < |Hello(c)| then |Hello(c)| else s.up);
    assert Answer(c, s.up) + [] == Answer(c, s.up);
  }

  lemma Part(d: bytes, w: bytes, from: nat, to: nat)
    requires d <= w || w <= d
    requires from <= |w| && from <= to <= |d|
    ensures d[..to][from..] <= w[from..] || w[from..] <= d[..to][from..]
  {
  }

  lemma InactiveHears(s: System, c: C.Config, data: bytes, env: C.Env)
    requires Inv(s, c) && !C.Active(s.client)
    requires s.down + |data| <= |Downstream(s)| && data == Downstream(s)[s.down..s.down + |data|]
    ensures Phase(c, C.Receive(s.client, data, env)) && s.client.wire <= C.Receive(s.client, data, env).wire
  {
    hide S.Reference, Inline, C.Sound, S.Faithful, C.NegotiateReceive, Hello, FirstHello;
    var p := s.client.(input := s.client.input + data);
    var received := Downstream(s)[..s.down];
    assert received + data == Downstream(s)[..s.down + |data|];
    Unconsumed(s.client, received, data);
    WelcomeFirst(s, c);
    Part(Downstream(s), Welcome(c), p.eaten, s.down + |data|);
    if c.kind == C.Socks4 {
      assert Welcome(c)[0..] == Welcome(c);
      assert FirstHello(c) == Hello(c) by { OneMessage(c); }
      Socks4Hears(c, p, env);
    } else if p.state == 1 {
      FirstAnswer(s, c);
      Socks5HearsMethod(c, p, env);
    } else {
      assert Welcome(c)[2..] == S.Reply5(0);
      Socks5HearsReply(c, p, env);
    }
  }

  lemma OneMessage(c: C.Config)
    requires Servable(c) && c.kind == C.Socks4
    ensures FirstHello(c) == Hello(c)
  {
  }

  lemma ClientHears(s: System, c: C.Config, n: nat, env: C.Env)
    requires Inv(s, c) && Enabled(s, ToClient(n))
    ensures Inv(Apply(s, ToClient(n), env), c)
  {
    hide S.Reference, Inline, C.Sound, S.Faithful, C.NegotiateReceive, C.RunCalls, Hello, FirstHello, Welcome;
    var received, data := Downstream(s)[..s.down], Downstream(s)[s.down..s.down + n];
    assert received + data == Downstream(s)[..s.down + n];
    C.ReceiveSound(s.client, received, data, env);
    var p := s.client;
    if C.Active(p) {
      var p1 := p.(delivered := p.delivered + data, turns := p.turns + 1);
      KeptStays(c, p1, C.RunCalls(p1, env.react(p.turns), env));
    } else {
      InactiveHears(s, c, data, env);
    }
    ClientStep(s, c, Apply(s, ToClient(n), env));
  }

  // -------------------------------------------------------------------------------------------
  // Every run
  // -------------------------------------------------------------------------------------------

  lemma StepInv(s: System, c: C.Config, e: Event, env: C.Env)
    requires Inv(s, c) && Enabled(s, e)
    ensures Inv(Apply(s, e, env), c)
  {
    hide Inv, Enabled;
    match e
    case ToServer(n, backlog) => ServerReads(s, c, n, backlog, env);
    case ToClient(n) => ClientHears(s, c, n, env);
    case Client(call) => ClientCalled(s, c, call, env);
    case ClientSent => ClientTold(s, c, env);
    case Server(event) => ServerMoves(s, c, event, env);
  }

  lemma ConnectPhase(c: C.Config)
    requires Servable(c)
    ensures Phase(c, C.Connect(c))
  {
    hide C.Request4, C.Greeting5, C.Request5, C.Mark;
    assert [] + FirstHello(c) == FirstHello(c);
  }

  lemma BeginInv(c: C.Config)
    requires Servable(c)
    ensures Inv(Begin(c), c)
  {
    hide C.Connect, C.Sound, Phase, Inline;
    C.ConnectSound(c);
    ConnectPhase(c);
    assert Downstream(Begin(c)) == [] && Downstream(Begin(c))[..0] == [];
    assert Upstream(Begin(c))[..0] == [];
  }

  lemma {:induction false} RunInv(s: System, c: C.Config, events: seq<Event>, env: C.Env)
    requires Inv(s, c) && Allowed(s, events, env)
    ensures Inv(Run(s, events, env), c)
    decreases |events|
  {
    hide Inv, Enabled, Apply;
    if events != [] {
      StepInv(s, c, events[0], env);
      RunInv(Apply(s, events[0], env), c, events[1..], env);
    }
  }

  function InFlightUp(s: System): bytes
    requires s.up <= |Upstream(s)|
  {
    Upstream(s)[s.up..]
  }

  function InFlightDown(s: System): bytes
    requires s.down <= |Downstream(s)|
  {
    Downstream(s)[s.down..]
  }

  /** Neither side ever fails, and a client that is active is connected to what it wanted. */
  ghost predicate Safe(s: System, c: C.Config) {
    && Servable(c)
    && s.client.errors == [] && !s.server.closed
    && (C.Active(s.client) ==> s.server.request.Some?)
    && (s.server.request.Some? ==> Meets(c, s.server.request.value))
  }

  /** In both directions the bytes that came out, those held at the far end and those in flight are
      together, in order, what went in: upwards the data the back end still wanted sent when the client
      became active and everything it wrote since, downwards everything the remote side sent. */
  ghost predicate Transparent(s: System) {
    && s.up <= |Upstream(s)| && s.down <= |Downstream(s)|
    && s.server.channel + s.server.held + InFlightUp(s) == C.PlainLeft(s.client.early) + C.Plain(s.client.late)
    && s.client.delivered + s.client.input + InFlightDown(s) == s.server.sent
  }

  lemma ActiveMeansAsked(s: System, c: C.Config)
    requires Inv(s, c) && C.Active(s.client)
    ensures s.up >= |Hello(c)|
  {
    hide S.Reference, Inline, S.Faithful, Hello;
    DownstreamContents(s, c);
    assert s.client.eaten <= |Downstream(s)|;
    assert Answer(c, s.up) + [] == Answer(c, s.up);
    AnswerShort(c, s.up);
  }

  lemma AnswerShort(c: C.Config, n: nat)
    requires Servable(c)
    ensures n < |Hello(c)| ==> |Answer(c, n)| < |Welcome(c)|
  {
    hide C.Request4;
  }

  lemma InvSafe(s: System, c: C.Config)
    requires Inv(s, c)
    ensures Safe(s, c)
  {
    hide S.Reference, Inline, C.Sound, Hello, Meets, Wanted;
    WantedMeets(c, Wanted(c));
    DownstreamContents(s, c);
    if C.Active(s.client) {
      ActiveMeansAsked(s, c);
    }
  }

  lemma InvTransparent(s: System, c: C.Config)
    requires Inv(s, c) && C.Active(s.client)
    ensures Transparent(s)
  {
    hide S.Reference, Inline, Hello, C.SoundActive, C.PlainLeft, C.Plain, Welcome;
    DownstreamContents(s, c);
    ActiveMeansAsked(s, c);
    UpstreamContents(s.client, Downstream(s)[..s.down]);
    var h, w, up, down := |Hello(c)|, |Welcome(c)|, Upstream(s), Downstream(s);
    assert s.server.channel + s.server.held == up[..s.up][h..] == up[h..s.up];
    assert up[h..s.up] + up[s.up..] == up[h..];
    assert s.client.delivered + s.client.input == down[..s.down][w..] == down[w..s.down];
    assert down[w..s.down] + down[s.down..] == down[w..];
    assert down == Welcome(c) + s.server.sent;
  }

  /** A negotiation under way is never stuck: a byte is in flight to a side that will read it. */
  lemma NeverStuck(s: System, c: C.Config)
    requires Inv(s, c) && !C.Active(s.client)
    ensures Enabled(s, ToServer(1, false)) || Enabled(s, ToClient(1))
  {
    hide S.Reference, Inline, C.SoundInactive;
    DownstreamContents(s, c);
    UpstreamContents(s.client, Downstream(s)[..s.down]);
    assert !s.client.subFrozen by { InactiveUnfrozen(s.client, Downstream(s)[..s.down]); }
    if s.down == |Downstream(s)| {
      assert Downstream(s)[..s.down] + [] == Downstream(s);
      Unconsumed(s.client, Downstream(s)[..s.down], []);
    }
  }

  lemma InactiveUnfrozen(p: C.Proxy, received: bytes)
    requires C.Sound(p, received) && !C.Active(p)
    ensures !p.subFrozen
  {
  }

  function Left(whole: nat, done: nat): nat {
    if done < whole then whole - done else 0
  }

  /** How much of the client's hello and of the server's welcome has not been delivered yet. */
  function Undelivered(s: System, c: C.Config): nat
    requires Servable(c)
  {
    Left(|Hello(c)|, s.up) + Left(|Welcome(c)|, s.down)
  }

  function Deliveries(events: seq<Event>): (n: nat)
    ensures n <= |events|
    decreases |events|
  {
    if events == [] then 0
    else (if events[0].ToServer? || events[0].ToClient? then 1 else 0) + Deliveries(events[1..])
  }

  /** A client that is not active has put at most its hello on the wire, and has not received all of the
      welcome. */
  lemma NegotiatingWithin(s: System, c: C.Config)
    requires Inv(s, c) && !C.Active(s.client)
    ensures |Upstream(s)| <= |Hello(c)| && s.down < |Welcome(c)|
  {
    hide Inline, C.Request4, C.Greeting5, C.Request5, S.Faithful, C.SoundInactive;
    var received := Downstream(s)[..s.down];
    UpstreamContents(s.client, received);
    Unconsumed(s.client, received, []);
    assert received + [] == received && s.client.input + [] == s.client.input;
    assert s.down == |received| == s.client.eaten + |s.client.input|;
    WelcomeLength(c);
  }

  lemma WelcomeLength(c: C.Config)
    requires Servable(c)
    ensures |Welcome(c)| == if c.kind == C.Socks4 then 8 else 12
  {
  }

  lemma ActiveStays(s: System, c: C.Config, e: Event, env: C.Env)
    requires Inv(s, c) && Enabled(s, e) && C.Active(s.client)
    ensures C.Active(Apply(s, e, env).client)
  {
    hide Inv, C.KeptOutput, C.RunCalls, C.CallActive;
  }

  lemma Counters(s: System, e: Event, env: C.Env)
    requires Enabled(s, e)
    ensures var t := Apply(s, e, env);
            && t.up == s.up + (if e.ToServer? then e.n else 0)
            && t.down == s.down + (if e.ToClient? then e.n else 0)
    ensures e.ToServer? ==> 0 < e.n <= |Upstream(s)| - s.up
    ensures e.ToClient? ==> e.n > 0
    ensures Deliveries([e]) == if e.ToServer? || e.ToClient? then 1 else 0
  {
    hide Upstream, Downstream, C.Receive, S.Receive, C.CallOn, C.Sent, S.Apply, S.Enabled;
    assert [e][1..] == [] && Deliveries([]) == 0;
  }

  /** Every delivery of a negotiation gets it further, and nothing sets it back. */
  lemma DeliveryCounts(s: System, c: C.Config, e: Event, env: C.Env)
    requires Inv(s, c) && Enabled(s, e) && !C.Active(s.client)
    ensures Undelivered(Apply(s, e, env), c) + Deliveries([e]) <= Undelivered(s, c)
  {
    NegotiatingWithin(s, c);
    Counters(s, e, env);
    hide Inv, Hello, Welcome, Upstream, Enabled, Apply, Deliveries;
  }

  lemma {:induction false} FewDeliveries(s: System, c: C.Config, events: seq<Event>, env: C.Env)
    requires Inv(s, c) && Allowed(s, events, env) && !C.Active(Run(s, events, env).client)
    ensures !C.Active(s.client)
    ensures Undelivered(Run(s, events, env), c) + Deliveries(events) <= Undelivered(s, c)
    decreases |events|
  {
    hide Inv, Enabled, Apply, Undelivered;
    if events != [] {
      var e := events[0];
      StepInv(s, c, e, env);
      FewDeliveries(Apply(s, e, env), c, events[1..], env);
      if C.Active(s.client) {
        ActiveStays(s, c, e, env);
      } else {
        DeliveryCounts(s, c, e, env);
        assert [e][1..] == [];
        assert Deliveries([e]) == if e.ToServer? || e.ToClient? then 1 else 0;
      }
    }
  }

  /** However the two streams are cut, as many deliveries as hello and welcome have bytes are enough to
      make the client active. */
  lemma NegotiationEnds(c: C.Config, events: seq<Event>, env: C.Env)
    requires Servable(c) && Allowed(Begin(c), events, env)
    requires Deliveries(events) >= |Hello(c)| + |Welcome(c)|
    ensures C.Active(Run(Begin(c), events, env).client)
  {
    hide Inv, Hello, Welcome, Allowed, Run;
    BeginInv(c);
    RunInv(Begin(c), c, events, env);
    var s := Run(Begin(c), events, env);
    if !C.Active(s.client) {
      FewDeliveries(Begin(c), c, events, env);
      NegotiatingWithin(s, c);
    }
  }

  /** Over every run of the joined client and server, with any cutting of the two streams, any
      behaviour of the back end and any behaviour of the SSH layer: nothing goes wrong or gets lost, and
      the negotiation ends. */
  lemma EveryRun(c: C.Config, events: seq<Event>, env: C.Env)
    requires Servable(c) && Allowed(Begin(c), events, env)
    ensures var s := Run(Begin(c), events, env);
            && Safe(s, c)
            && (C.Active(s.client) ==> Transparent(s))
            && (!C.Active(s.client) ==> Enabled(s, ToServer(1, false)) || Enabled(s, ToClient(1)))
            && (Deliveries(events) >= |Hello(c)| + |Welcome(c)| ==> C.Active(s.client))
  {
    hide Inv, Safe, Transparent, Enabled, Allowed, Run, Deliveries, Hello, Welcome;
    if Deliveries(events) >= |Hello(c)| + |Welcome(c)| {
      NegotiationEnds(c, events, env);
    }
    BeginInv(c);
    RunInv(Begin(c), c, events, env);
    var s := Run(Begin(c), events, env);
    InvSafe(s, c);
    if C.Active(s.client) {
      InvTransparent(s, c);
    } else {
      NeverStuck(s, c);
    }
  }
}
