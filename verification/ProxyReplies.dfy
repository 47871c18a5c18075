/**
 * What a SOCKS proxy's stream means to the client (PROXY.C:689-1169): which replies grant the
 * connection, what else they call for, and what the client has said by then.
 *
 * `Meaning` looks at the stream alone, without any state machine. The theorem is about every run of
 * the proxy socket, whatever the back end does in its callbacks.
 */
module ProxyReplies {
  import opened Bytes
  import opened ProxySocket

  // -------------------------------------------------------------------------------------------
  // The grammar
  // -------------------------------------------------------------------------------------------

  datatype Verdict = Pending | Granted | Failed(error: Error)

  /** What the proxy's stream amounts to: the verdict, how many bytes belong to messages that have
      been dealt with, and everything the client says up to there. */
  datatype Meaning = Meaning(verdict: Verdict, used: nat, said: bytes)

  predicate Credentials(c: ProxyConfig) {
    c.username != [] || c.password != []
  }

  /** SOCKS4 and 4A: one reply of eight bytes. */
  function Meaning4(c: ProxyConfig, s: bytes): Meaning {
    if c.target.IPv6? then Meaning(Failed(IPv6Unsupported), 0, [])
    else
      var said := Request4(c);
      if |s| < 8 then Meaning(Pending, 0, said)
      else if [0, 90] <= s then Meaning(Granted, 8, said)
      else if s[0] != 0 then Meaning(Failed(WrongReplyVersion), 0, said)
      else if s[1] == 92 then Meaning(Failed(NoIdentd), 0, said)
      else if s[1] == 93 then Meaning(Failed(IdentdMismatch), 0, said)
      else Meaning(Failed(RequestRejected), 0, said)
  }

  /** SOCKS5: the method (RFC 1928, section 3), for method 2 the answer to user name and password
      (RFC 1929), and the reply to the request. */
  function Meaning5(c: ProxyConfig, s: bytes): Meaning
    requires c.kind == Socks5
  {
    var hello := Greeting5(c);
    if |s| < 2 then Meaning(Pending, 0, hello)
    else if s[0] != 5 then Meaning(Failed(WrongVersion), 0, hello)
    else if s[1] == 0 then ReplyAt(s, 2, hello + Request5(c))
    else if s[1] == 1 then Meaning(Failed(NoGssapi), 2, hello)
    else if s[1] == 2 && Credentials(c) then PasswordAnswer(c, s, hello + Password5(c))
    else if s[1] == 2 then Meaning(Failed(PasswordNotOffered), 2, hello)
    else if s[1] == 3 then Meaning(Failed(NoChap), 2, hello)
    else Meaning(Failed(NoAcceptableMethod), 0, hello)
  }

  function PasswordAnswer(c: ProxyConfig, s: bytes, said: bytes): Meaning
    requires c.kind == Socks5
  {
    if |s| < 4 then Meaning(Pending, 2, said)
    else if s[2] != 1 then Meaning(Failed(WrongPasswordVersion), 2, said)
    else if s[3] != 0 then Meaning(Failed(PasswordRefused), 2, said)
    else ReplyAt(s, 4, said + Request5(c))
  }

  /** The reply to the request (RFC 1928, section 6): version, code, a zero, type, address, port. */
  function ReplyAt(s: bytes, at: nat, said: bytes): Meaning {
    if |s| < at + 5 then Meaning(Pending, at, said)
    else if s[at] != 5 then Meaning(Failed(WrongConnectVersion), at, said)
    else if s[at + 1] != 0 then Meaning(Failed(ConnectFailed(s[at + 1])), at, said)
    else
      var n := ReplySize(s[at + 3], s[at + 4]);
      if n == 0 then Meaning(Failed(UnknownAddressFormat), at, said)
      else if |s| < at + n - Short(s[at + 3]) then Meaning(Pending, at, said)
      else Meaning(Granted, at + n - Short(s[at + 3]), said)
  }

  /** Length of a reply by its address type and the byte after it, or 0: four bytes, the address - a
      name has its length in front - and two bytes of port. */
  function ReplySize(addressType: byte, next: byte): nat {
    if addressType == 1 then 4 + 4 + 2
    else if addressType == 4 then 4 + 16 + 2
    else if addressType == 3 then 4 + (1 + next as int) + 2
    else 0
  }

  /** By how much the source falls short of that: for a name it forgets the byte with its length. */
  function Short(addressType: byte): nat {
    if addressType == 3 then 1 else 0
  }

  function Means(c: ProxyConfig, s: bytes): Meaning
    requires c.kind != Http
  {
    if c.kind == Socks4 then Meaning4(c, s) else Meaning5(c, s)
  }

  // -------------------------------------------------------------------------------------------
  // One message a read
  // -------------------------------------------------------------------------------------------

  /** Whether the proxy has chosen user name and password. */
  predicate Asks(c: ProxyConfig, s: bytes) {
    c.kind == Socks5 && |s| >= 2 && s[0] == 5 && s[1] == 2 && Credentials(c)
  }

  /** The client deals with one message a read. Of a stream with `r2` reads after which it had at least
      two bytes, and `r4` after which it had four, it has looked at this much. */
  function Heard(c: ProxyConfig, s: bytes, r2: nat, r4: nat): (h: bytes)
    ensures h <= s
  {
    if c.kind == Socks5 && |s| >= 2 && r2 < 2 then s[..2]
    else if Asks(c, s) && |s| >= 4 && (r2 < 3 || r4 < 2) then s[..4]
    else s
  }

  /** Whether an event is a read after which the stream, of which `before` bytes had come, has at least
      `n` bytes. */
  function Tick(before: nat, e: Event, n: nat): nat {
    if e.Received? && before + |e.data| >= n then 1 else 0
  }

  /** How many reads of a run are of that kind. */
  function Reads(before: nat, events: seq<Event>, n: nat): nat
    decreases |events|
  {
    if events == [] then 0
    else Tick(before, events[0], n) + Reads(before + |Piece(events[0])|, events[1..], n)
  }

  // -------------------------------------------------------------------------------------------
  // The negotiators
  // -------------------------------------------------------------------------------------------

  /** The state number that goes with what has been heard. */
  function StateFor(c: ProxyConfig, h: bytes): int
    requires c.kind != Http
  {
    if c.kind == Socks4 then (if c.target.IPv6? then NEW else 1)
    else if |h| < 2 || h[0] != 5 || h[1] > 3 then 1
    else if h[1] == 0 then 3
    else if h[1] == 1 then 4
    else if h[1] == 3 then 6
    else if !Credentials(c) then 5
    else if |h| < 4 || h[2] != 1 || h[3] != 0 then 7
    else 3
  }

  /** A client that stands where `m` says. */
  ghost predicate Matches(p: Proxy, c: ProxyConfig, m: Meaning, state: int) {
    && p.cfg == c
    && (Active(p) <==> m.verdict.Granted?)
    && p.eaten == m.used && p.hello == m.said
    && (p.errors == [] <==> !m.verdict.Failed?) && Blames(p, m)
    && (!Active(p) ==> p.state == state)
  }

  predicate Blames(p: Proxy, m: Meaning) {
    forall e <- p.errors :: m.verdict == Failed(e)
  }

  /** A client that has looked at `h`. */
  ghost predicate Stands(p: Proxy, c: ProxyConfig, h: bytes)
    requires c.kind != Http
  {
    Matches(p, c, Means(c, h), StateFor(c, h))
  }

  /** What has been decided stays so. */
  lemma FinalMeans(c: ProxyConfig, h: bytes, more: bytes)
    requires c.kind != Http && h <= more && !Means(c, h).verdict.Pending?
    ensures Means(c, more) == Means(c, h)
  {
    hide Request4, Greeting5, Request5, Password5;
    assert forall k :: 0 <= k < |h| ==> more[k] == h[k];
  }

  /** Activation and whatever follows it leave alone what has been negotiated. */
  lemma ActivatedMatches(p: Proxy, m: Meaning, state: int, env: Env)
    requires p.errors == [] && m == Meaning(Granted, p.eaten, p.hello)
    ensures Matches(Activate(p, env), p.cfg, m, state)
  {
    hide KeptOutput;
    assert Kept(Opened(p), Activate(p, env));
    hide Activate;
  }

  lemma FirstBlamed(p: Proxy, m: Meaning)
    requires Blames(p, m)
    ensures p.errors != [] ==> m.verdict == Failed(p.errors[0])
  {
  }

  lemma FailedMatches(p: Proxy, m: Meaning, error: Error)
    requires !Active(p) && m == Meaning(Failed(error), p.eaten, p.hello) && Blames(p, m)
    ensures Matches(ProxySocket.Fail(p, error), p.cfg, m, p.state)
  {
  }

  lemma Hears4(p: Proxy, s: bytes, env: Env)
    requires p.cfg.kind == Socks4 && !p.cfg.target.IPv6? && p.state == 1 && p.input == s
    requires p.eaten == 0 && p.hello == Request4(p.cfg) && Blames(p, Meaning4(p.cfg, s))
    ensures Matches(Socks4Receive(p, env), p.cfg, Meaning4(p.cfg, s), 1)
  {
    hide Activate, Request4;
    var m := Meaning4(p.cfg, s);
    FirstBlamed(p, m);
    if m.verdict.Granted? {
      ActivatedMatches(ProxySocket.Consume(p, 8), m, 1, env);
    }
  }

  lemma PendingMatches(p: Proxy, m: Meaning)
    requires !Active(p) && m == Meaning(Pending, p.eaten, p.hello) && Blames(p, m)
    ensures Matches(p, p.cfg, m, p.state)
  {
    FirstBlamed(p, m);
  }

  lemma HearsReply(p: Proxy, s: bytes, at: nat, env: Env)
    requires p.state == 3 && at <= |s| && p.input == s[at..] && p.eaten == at
    requires Blames(p, ReplyAt(s, at, p.hello))
    ensures Matches(Socks5Reply(p, env), p.cfg, ReplyAt(s, at, p.hello), 3)
  {
    hide Activate, Matches, Blames;
    var m, d := ReplyAt(s, at, p.hello), p.input;
    assert |d| >= 5 ==> s[at] == d[0] && s[at + 1] == d[1] && s[at + 3] == d[3] && s[at + 4] == d[4];
    match m.verdict
    case Pending => PendingMatches(p, m);
    case Failed(error) => FailedMatches(p, m, error);
    case Granted =>
      FirstBlamed(p, m);
      ActivatedMatches(ProxySocket.Consume(p, m.used - at), m, 3, env);
  }

  /** What the client does once the method is settled and any password accepted. */
  lemma AnswersMatch(p: Proxy, m: Meaning, env: Env)
    requires p.cfg.kind == Socks5 && p.eaten == m.used && Blames(p, m)
    requires match p.state
             case 2 => m == Meaning(Pending, p.eaten, p.hello + Request5(p.cfg))
             case 4 => m == Meaning(Failed(NoGssapi), p.eaten, p.hello)
             case 5 => m == if Credentials(p.cfg) then Meaning(Pending, p.eaten, p.hello + Password5(p.cfg))
                            else Meaning(Failed(PasswordNotOffered), p.eaten, p.hello)
             case 6 => m == Meaning(Failed(NoChap), p.eaten, p.hello)
             case _ => false
    ensures Matches(Socks5Answer(p, env), p.cfg, m,
                    if p.state == 2 then 3 else if p.state == 5 && Credentials(p.cfg) then 7 else p.state)
  {
    hide Activate, Request5, Password5;
    FirstBlamed(p, m);
  }

  /** The answer to the greeting, when the first two bytes have just come. */
  lemma HearsMethod(p: Proxy, s: bytes, env: Env)
    requires p.cfg.kind == Socks5 && p.state == 1 && p.input == s && |s| >= 2
    requires p.eaten == 0 && p.hello == Greeting5(p.cfg) && Blames(p, Meaning5(p.cfg, s[..2]))
    ensures Matches(Socks5Receive(p, env), p.cfg, Meaning5(p.cfg, s[..2]), StateFor(p.cfg, s[..2]))
  {
    hide Activate, Greeting5, Request5, Password5, Socks5Answer, Matches;
    var h := s[..2];
    var m := Meaning5(p.cfg, h);
    assert h[0] == s[0] && h[1] == s[1];
    if s[0] != 5 || s[1] > 3 {
      FailedMatches(p, m, m.verdict.error);
    } else {
      AnswersMatch(Socks5Method(p).0, m, env);
    }
  }

  lemma HearsPassword(p: Proxy, s: bytes, env: Env)
    requires p.cfg.kind == Socks5 && p.state == 7 && Asks(p.cfg, s) && p.input == s[2..] && |s| >= 4
    requires p.eaten == 2 && p.hello == Greeting5(p.cfg) + Password5(p.cfg)
    requires Blames(p, Meaning5(p.cfg, s[..4]))
    ensures Matches(Socks5Receive(p, env), p.cfg, Meaning5(p.cfg, s[..4]), StateFor(p.cfg, s[..4]))
  {
    hide Activate, Greeting5, Request5, Password5, Socks5Answer, Matches;
    var h := s[..4];
    var m := Meaning5(p.cfg, h);
    assert h[0] == s[0] && h[1] == s[1] && h[2] == s[2] && h[3] == s[3];
    assert p.input[0] == s[2] && p.input[1] == s[3];
    if s[2] != 1 || s[3] != 0 {
      FailedMatches(p, m, m.verdict.error);
    } else {
      AnswersMatch(Socks5Password(p).0, m, env);
    }
  }

  // -------------------------------------------------------------------------------------------
  // One read
  // -------------------------------------------------------------------------------------------

  /** The client's stream is `s`, after so many reads. */
  predicate Counted(s: bytes, r2: nat, r4: nat) {
    (if |s| < 2 then r2 == 0 else r2 > 0) && (if |s| < 4 then r4 == 0 else r4 > 0) && r4 <= r2
  }

  /** A read of `data` ends with `n` bytes of the stream or more. */
  function Counts(s: bytes, data: bytes, n: nat): nat {
    if |s| + |data| >= n then 1 else 0
  }

  lemma HeardGrows(c: ProxyConfig, s: bytes, data: bytes, r2: nat, r4: nat)
    requires Counted(s, r2, r4)
    ensures Counted(s + data, r2 + Counts(s, data, 2), r4 + Counts(s, data, 4))
    ensures Heard(c, s, r2, r4) <= Heard(c, s + data, r2 + Counts(s, data, 2), r4 + Counts(s, data, 4))
  {
    var t := s + data;
    assert |s| >= 2 ==> t[..2] == s[..2] && t[0] == s[0] && t[1] == s[1];
    assert |s| >= 4 ==> t[..4] == s[..4];
  }

  /** The client in state 1: before the answer to its greeting, or after one it cannot use. */
  lemma HearsInState1(p: Proxy, s: bytes, t: bytes, g: bytes, env: Env)
    requires p.cfg.kind == Socks5 && p.state == 1 && p.input == t && p.eaten == 0 && p.hello == Greeting5(p.cfg)
    requires s <= t && Blames(p, Means(p.cfg, g))
    requires if |t| < 2 then g == t else if |s| < 2 then g == t[..2]
             else t[..2] <= g && (t[0] != 5 || t[1] > 3)
    ensures Stands(Socks5Receive(p, env), p.cfg, g)
  {
    hide Greeting5, Request5, Password5, Socks5Answer;
    var m := Means(p.cfg, g);
    if |t| < 2 {
      FirstBlamed(p, m);
    } else if |s| < 2 {
      HearsMethod(p, t, env);
    } else {
      assert g[0] == t[..2][0] && g[1] == t[..2][1];
      FailedMatches(p, m, m.verdict.error);
    }
  }

  /** In states 4, 5 and 6 the client has given up already. */
  lemma HearsGivenUp(p: Proxy, g: bytes, env: Env)
    requires p.cfg.kind == Socks5 && p.state == StateFor(p.cfg, g) && p.state in {4, 5, 6}
    requires p.eaten == 2 && p.hello == Greeting5(p.cfg) && Blames(p, Means(p.cfg, g))
    ensures Stands(Socks5Receive(p, env), p.cfg, g)
  {
    hide Greeting5, Request5, Password5, Socks5Answer;
    AnswersMatch(p, Means(p.cfg, g), env);
  }

  lemma HearsInState7(p: Proxy, h: bytes, t: bytes, g: bytes, env: Env)
    requires p.cfg.kind == Socks5 && p.state == 7 && Asks(p.cfg, t) && p.input == t[2..] && p.eaten == 2
    requires p.hello == Greeting5(p.cfg) + Password5(p.cfg) && Blames(p, Means(p.cfg, g))
    requires if |t| < 4 then g == t else g == t[..4] || (t[..4] <= g && (t[2] != 1 || t[3] != 0))
    ensures Stands(Socks5Receive(p, env), p.cfg, g)
  {
    hide Greeting5, Request5, Password5, Socks5Answer;
    var m := Means(p.cfg, g);
    if |t| < 4 {
      FirstBlamed(p, m);
    } else {
      var f := t[..4];
      assert f[0] == t[0] && f[1] == t[1] && f[2] == t[2] && f[3] == t[3];
      if f != g {
        assert Means(p.cfg, f).verdict.Failed?;
        FinalMeans(p.cfg, f, g);
        assert g[0] == f[0] && g[1] == f[1] && g[2] == f[2] && g[3] == f[3];
      }
      HearsPassword(p, t, env);
    }
  }

  lemma HearsInState3(p: Proxy, t: bytes, env: Env)
    requires p.cfg.kind == Socks5 && p.state == 3 && StateFor(p.cfg, t) == 3
    requires p.eaten == (if Asks(p.cfg, t) then 4 else 2) && p.input == t[p.eaten..]
    requires p.hello == Greeting5(p.cfg) + (if Asks(p.cfg, t) then Password5(p.cfg) else []) + Request5(p.cfg)
    requires Blames(p, Means(p.cfg, t))
    ensures Stands(Socks5Receive(p, env), p.cfg, t)
  {
    hide Greeting5, Request5, Password5, Socks5Reply;
    assert Greeting5(p.cfg) + [] == Greeting5(p.cfg);
    assert Means(p.cfg, t) == ReplyAt(t, p.eaten, p.hello);
    HearsReply(p, t, p.eaten, env);
  }

  /** How far a client has got, by its state. */
  lemma WhereItStands(p: Proxy, h: bytes)
    requires p.cfg.kind == Socks5 && !Active(p) && Stands(p, p.cfg, h)
    ensures p.state in {1, 3, 4, 5, 6, 7}
    ensures p.state == 1 ==> p.eaten == 0 && p.hello == Greeting5(p.cfg) && (|h| < 2 || h[0] != 5 || h[1] > 3)
    ensures p.state != 1 ==> |h| >= 2 && h[0] == 5 && h[1] <= 3
    ensures p.state in {4, 5, 6} ==> p.eaten == 2 && p.hello == Greeting5(p.cfg) && h[1] != 0 && !Asks(p.cfg, h)
    ensures p.state == 7 ==>
              && Asks(p.cfg, h) && p.eaten == 2 && p.hello == Greeting5(p.cfg) + Password5(p.cfg)
              && (|h| < 4 || h[2] != 1 || h[3] != 0)
    ensures p.state == 3 ==>
              && (if Asks(p.cfg, h) then |h| >= 4 && h[2] == 1 && h[3] == 0 else h[1] == 0)
              && p.eaten == (if Asks(p.cfg, h) then 4 else 2)
              && p.hello == Greeting5(p.cfg) + (if Asks(p.cfg, h) then Password5(p.cfg) else []) + Request5(p.cfg)
  {
    hide Greeting5, Request5, Password5;
    assert Greeting5(p.cfg) + [] == Greeting5(p.cfg);
  }

  /** A client waiting for more hears what one more read brings. */
  lemma HearsSocks5(p: Proxy, s: bytes, data: bytes, r2: nat, r4: nat, env: Env)
    requires Counted(s, r2, r4) && p.cfg.kind == Socks5 && !Active(p)
    requires Stands(p, p.cfg, Heard(p.cfg, s, r2, r4)) && p.eaten <= |s| && p.input == s[p.eaten..]
    ensures Stands(Socks5Receive(p.(input := p.input + data), env), p.cfg,
                   Heard(p.cfg, s + data, r2 + Counts(s, data, 2), r4 + Counts(s, data, 4)))
  {
    hide Greeting5, Request5, Password5, Socks5Receive, Means;
    var c, t, q := p.cfg, s + data, p.(input := p.input + data);
    var h, g := Heard(c, s, r2, r4), Heard(c, t, r2 + Counts(s, data, 2), r4 + Counts(s, data, 4));
    HeardGrows(c, s, data, r2, r4);
    assert q.input == t[p.eaten..];
    WhereItStands(p, h);
    assert Blames(q, Means(c, g)) by {
      if !Means(c, h).verdict.Pending? {
        FinalMeans(c, h, g);
      } else {
        FirstBlamed(p, Means(c, h));
      }
    }
    assert |h| >= 2 ==> h[0] == t[0] && h[1] == t[1];
    assert |h| >= 4 ==> h[2] == t[2] && h[3] == t[3];
    hide Stands;
    if p.state == 1 {
      assert t[0..] == t;
      HearsInState1(q, s, t, g, env);
    } else if p.state == 3 {
      HearsInState3(q, t, env);
    } else if p.state == 7 {
      HearsInState7(q, h, t, g, env);
    } else {
      HearsGivenUp(q, g, env);
    }
  }

  // -------------------------------------------------------------------------------------------
  // Every run
  // -------------------------------------------------------------------------------------------

  /** A client that has been sent `s`, in so many reads. */
  ghost predicate Keeps(p: Proxy, c: ProxyConfig, s: bytes, r2: nat, r4: nat)
    requires c.kind != Http
  {
    Counted(s, r2, r4) && Sound(p, s) && Stands(p, c, Heard(c, s, r2, r4))
  }

  /** An active client has been granted its connection, and whatever follows leaves that alone. */
  lemma StaysGranted(p: Proxy, q: Proxy, c: ProxyConfig, h: bytes, g: bytes)
    requires c.kind != Http && Stands(p, c, h) && Active(p) && h <= g
    requires q.cfg == p.cfg && q.state == p.state && q.errors == p.errors && q.eaten == p.eaten && q.hello == p.hello
    ensures Stands(q, c, g)
  {
    hide Means;
    FinalMeans(c, h, g);
  }

  lemma ReadKeeps(p: Proxy, c: ProxyConfig, s: bytes, r2: nat, r4: nat, data: bytes, env: Env)
    requires c.kind != Http && Keeps(p, c, s, r2, r4) && Enabled(p, Received(data))
    ensures Keeps(Receive(p, data, env), c, s + data, r2 + Counts(s, data, 2), r4 + Counts(s, data, 4))
  {
    hide Sound, Stands, Heard, RunCalls, Socks4Receive, Socks5Receive, Open, KeptOutput;
    ReceiveSound(p, s, data, env);
    HeardGrows(c, s, data, r2, r4);
    assert p.cfg == c by { CfgIs(p, c, Heard(c, s, r2, r4)); }
    if Active(p) {
      var p1 := p.(delivered := p.delivered + data, turns := p.turns + 1);
      StaysGranted(p, RunCalls(p1, env.react(p.turns), env), c, Heard(c, s, r2, r4),
                   Heard(c, s + data, r2 + Counts(s, data, 2), r4 + Counts(s, data, 4)));
    } else {
      InputIs(p, s);
      if c.kind == Socks5 {
        NotNew(p, Heard(c, s, r2, r4));
        HearsSocks5(p, s, data, r2, r4, env);
      } else {
        WholeHeard(c, s, r2, r4);
        WholeHeard(c, s + data, r2 + Counts(s, data, 2), r4 + Counts(s, data, 4));
        HearsSocks4(p, s, data, env);
      }
    }
  }

  lemma CfgIs(p: Proxy, c: ProxyConfig, h: bytes)
    requires c.kind != Http && Stands(p, c, h)
    ensures p.cfg == c
  {
  }

  lemma NotNew(p: Proxy, h: bytes)
    requires p.cfg.kind == Socks5 && !Active(p) && Stands(p, p.cfg, h)
    ensures p.state != NEW
  {
    WhereItStands(p, h);
  }

  lemma WholeHeard(c: ProxyConfig, s: bytes, r2: nat, r4: nat)
    requires c.kind == Socks4
    ensures Heard(c, s, r2, r4) == s
  {
  }

  lemma InputIs(p: Proxy, s: bytes)
    requires Sound(p, s) && !Active(p)
    ensures p.eaten <= |s| && p.input == s[p.eaten..]
  {
    assert [] + p.input == p.input;
  }

  lemma HearsSocks4(p: Proxy, s: bytes, data: bytes, env: Env)
    requires p.cfg.kind == Socks4 && !Active(p) && Stands(p, p.cfg, s) && p.eaten <= |s| && p.input == s[p.eaten..]
    ensures Stands(NegotiateReceive(p.(input := p.input + data), env), p.cfg, s + data)
  {
    hide Request4, Socks4Receive;
    var q := p.(input := p.input + data);
    if !Means(p.cfg, s).verdict.Pending? {
      FinalMeans(p.cfg, s, s + data);
    }
    FirstBlamed(p, Means(p.cfg, s));
    if p.cfg.target.IPv6? {
      FailedMatches(q, Means(p.cfg, s + data), IPv6Unsupported);
    } else {
      assert q.input == s + data;
      Hears4(q, s + data, env);
    }
  }

  lemma ActiveEvent(p: Proxy, e: Event, env: Env)
    requires Active(p) && !e.Received?
    ensures var q := Apply(p, e, env);
            q.cfg == p.cfg && q.state == p.state && q.errors == p.errors && q.eaten == p.eaten && q.hello == p.hello
  {
    hide RunCalls, CallActive, KeptOutput;
  }

  /** Calls of the back end, and room in the output, decide nothing. */
  lemma OtherKeeps(p: Proxy, c: ProxyConfig, s: bytes, r2: nat, r4: nat, e: Event, env: Env)
    requires c.kind != Http && Keeps(p, c, s, r2, r4) && !e.Received?
    ensures Keeps(Apply(p, e, env), c, s, r2, r4)
  {
    hide Sound, Heard, Apply, Stands;
    var h := Heard(c, s, r2, r4);
    ApplySound(p, s, e, env);
    assert s + [] == s;
    if Active(p) {
      ActiveEvent(p, e, env);
      StaysGranted(p, Apply(p, e, env), c, h, h);
    } else {
      InactiveEvent(p, c, h, e, env);
    }
  }

  lemma SameStands(p: Proxy, q: Proxy, c: ProxyConfig, h: bytes)
    requires c.kind != Http && Stands(p, c, h)
    requires q.cfg == p.cfg && q.state == p.state && q.errors == p.errors && q.eaten == p.eaten && q.hello == p.hello
    ensures Stands(q, c, h)
  {
    hide Means, StateFor;
  }

  lemma InactiveEvent(p: Proxy, c: ProxyConfig, h: bytes, e: Event, env: Env)
    requires c.kind != Http && Stands(p, c, h) && !Active(p) && !e.Received?
    ensures Stands(Apply(p, e, env), c, h)
  {
    hide Stands, Open;
    if e.SentMore? && p.state == NEW {
      SentWhenNew(p, c, h);
    } else {
      SameStands(p, Apply(p, e, env), c, h);
    }
  }

  lemma SentWhenNew(p: Proxy, c: ProxyConfig, h: bytes)
    requires c.kind != Http && Stands(p, c, h) && p.state == NEW
    ensures Stands(Open(p), c, h)
  {
    hide Request4, Greeting5, Request5, Password5;
    if c.kind == Socks5 {
      WhereItStands(p, h);
    } else {
      FailedMatches(p, Means(c, h), IPv6Unsupported);
    }
  }

  lemma StepKeeps(p: Proxy, c: ProxyConfig, s: bytes, r2: nat, r4: nat, e: Event, env: Env)
    requires c.kind != Http && Keeps(p, c, s, r2, r4) && Enabled(p, e)
    ensures Keeps(Apply(p, e, env), c, s + Piece(e), r2 + Tick(|s|, e, 2), r4 + Tick(|s|, e, 4))
  {
    hide Keeps, Receive, Sent, CallOn;
    assert s + [] == s;
    if e.Received? {
      ReadKeeps(p, c, s, r2, r4, e.data, env);
    } else {
      OtherKeeps(p, c, s, r2, r4, e, env);
    }
  }

  lemma {:induction false} RunKeeps(p: Proxy, c: ProxyConfig, s: bytes, r2: nat, r4: nat, events: seq<Event>, env: Env)
    requires c.kind != Http && Keeps(p, c, s, r2, r4) && Allowed(p, events, env)
    ensures Keeps(Run(p, events, env), c, s + Stream(events), r2 + Reads(|s|, events, 2), r4 + Reads(|s|, events, 4))
    decreases |events|
  {
    hide Keeps, Apply, Tick, Piece;
    if events == [] {
      assert s + [] == s;
    } else {
      var e := events[0];
      StepKeeps(p, c, s, r2, r4, e, env);
      RunKeeps(Apply(p, e, env), c, s + Piece(e), r2 + Tick(|s|, e, 2), r4 + Tick(|s|, e, 4), events[1..], env);
      assert s + Piece(e) + Stream(events[1..]) == s + Stream(events);
    }
  }

  lemma ConnectKeeps(c: ProxyConfig)
    requires c.kind != Http
    ensures Keeps(Connect(c), c, [], 0, 0)
  {
    hide Request4, Greeting5, Sound;
    ConnectSound(c);
    assert [] + Request4Of(c) == Request4Of(c) && [] + Greeting5(c) == Greeting5(c);
  }

  function Request4Of(c: ProxyConfig): bytes {
    if c.target.IPv6? then [] else Request4(c)
  }

  /** Over every run of a SOCKS client, whatever the back end does in its callbacks: activation, the
      bytes consumed, everything reported and everything said are those which the proxy's stream, as
      far as it has been heard, calls for. */
  lemma EveryNegotiation(c: ProxyConfig, events: seq<Event>, env: Env)
    requires c.kind != Http && Allowed(Connect(c), events, env)
    ensures var p, s := Run(Connect(c), events, env), Stream(events);
            var m := Means(c, Heard(c, s, Reads(0, events, 2), Reads(0, events, 4)));
            && (Active(p) <==> m.verdict.Granted?)
            && (p.errors != [] <==> m.verdict.Failed?)
            && (forall e <- p.errors :: m.verdict == Failed(e))
            && p.eaten == m.used && p.hello == m.said
  {
    hide Means, Heard, Sound;
    ConnectKeeps(c);
    RunKeeps(Connect(c), c, [], 0, 0, events, env);
    assert [] + Stream(events) == Stream(events);
  }

  /** Since each message before the reply there has been a read for every message after it, as there is
      when the proxy answers only what it has been sent. */
  predicate InTime(c: ProxyConfig, s: bytes, r2: nat, r4: nat) {
    && (c.kind == Socks5 && |s| >= 2 ==> r2 >= 2)
    && (Asks(c, s) && |s| >= 4 ==> r2 >= 3 && r4 >= 2)
  }

  /** A cut stream grants nothing. */
  lemma NothingGrantedEarly(c: ProxyConfig, s: bytes, r2: nat, r4: nat)
    requires c.kind != Http
    ensures var h := Heard(c, s, r2, r4);
            Means(c, h).verdict.Granted? <==> Means(c, s).verdict.Granted? && InTime(c, s, r2, r4)
    ensures Means(c, Heard(c, s, r2, r4)).verdict.Granted? ==> Heard(c, s, r2, r4) == s
  {
    hide Request4, Greeting5, Request5, Password5;
    assert |s| >= 2 ==> s[..2][0] == s[0] && s[..2][1] == s[1];
    assert |s| >= 4 ==> s[..4][0] == s[0] && s[..4][1] == s[1] && s[..4][2] == s[2] && s[..4][3] == s[3];
  }

  /** A client is active if and only if the stream begins with a complete grant, and since each earlier
      message there has been a read for every message after it; it has then consumed that grant and said
      what the grant answers. */
  lemma ActiveExactly(c: ProxyConfig, events: seq<Event>, env: Env)
    requires c.kind != Http && Allowed(Connect(c), events, env)
    ensures var p, s := Run(Connect(c), events, env), Stream(events);
            && (Active(p) <==> Means(c, s).verdict.Granted? && InTime(c, s, Reads(0, events, 2), Reads(0, events, 4)))
            && (Active(p) ==> p.eaten == Means(c, s).used && p.hello == Means(c, s).said && p.errors == [])
  {
    hide Means, Heard, InTime;
    EveryNegotiation(c, events, env);
    NothingGrantedEarly(c, Stream(events), Reads(0, events, 2), Reads(0, events, 4));
  }

  // -------------------------------------------------------------------------------------------
  // What a grant is, and what of it is eaten
  // -------------------------------------------------------------------------------------------

  /** A reply that grants the request (RFC 1928, section 6). */
  predicate GrantReply(m: bytes) {
    |m| >= 5 && m[0] == 5 && m[1] == 0 && |m| == ReplySize(m[3], m[4])
  }

  /** Everything the proxy says up to the grant: the method, the answer to user name and password if it
      asks for them, and a reply. */
  predicate GrantStream(c: ProxyConfig, g: bytes)
    requires c.kind == Socks5
  {
    || ([5, 0] <= g && GrantReply(g[2..]))
    || (Credentials(c) && [5, 2, 1, 0] <= g && GrantReply(g[4..]))
  }

  /** A stream that begins with a whole grant is taken for one. The client eats exactly the grant, if and
      only if the reply does not carry a name; of a reply with a name it leaves the last byte. */
  lemma GrantTaken(c: ProxyConfig, g: bytes, rest: bytes)
    requires c.kind == Socks5 && GrantStream(c, g)
    ensures var m := Means(c, g + rest);
            var at := if g[1] == 0 then 2 else 4;
            && m.verdict.Granted? && m.used <= |g|
            && (m.used == |g| <==> g[at + 3] != 3)
            && (m.used < |g| ==> m.used == |g| - 1)
  {
    hide Greeting5, Request5, Password5;
    var s, at := g + rest, if g[1] == 0 then 2 else 4;
    assert forall k :: 0 <= k < |g| ==> s[k] == g[k];
    assert g[at..][0] == g[at] && g[at..][1] == g[at + 1] && g[at..][3] == g[at + 3] && g[at..][4] == g[at + 4];
  }

  /** Nothing else is: a granted stream begins with a grant, whole but perhaps for the last byte of a reply
      with a name. */
  lemma OnlyGrantsTaken(c: ProxyConfig, s: bytes)
    requires c.kind == Socks5 && Means(c, s).verdict.Granted?
    ensures var n := Means(c, s).used;
            n <= |s| && (GrantStream(c, s[..n]) || exists b: byte :: GrantStream(c, s[..n] + [b]))
  {
    hide Greeting5, Request5, Password5;
    var n, at := Means(c, s).used, if s[1] == 0 then 2 else 4;
    var g := if s[at + 3] == 3 then s[..n] + [0] else s[..n];
    var m := g[at..];
    assert m[0] == s[at] && m[1] == s[at + 1] && m[3] == s[at + 3] && m[4] == s[at + 4];
    assert g[0] == s[0] && g[1] == s[1] && (at == 4 ==> g[2] == s[2] && g[3] == s[3]);
    assert GrantStream(c, g);
  }

  lemma GrantIsLong(c: ProxyConfig, g: bytes)
    requires c.kind == Socks5 && GrantStream(c, g)
    ensures |g| > 8
  {
  }

  /** With a name in the reply the byte left over, the end of the proxy's port, becomes the first byte of
      data for the back end. */
  lemma ReplyByteDelivered(c: ProxyConfig, events: seq<Event>, env: Env, g: bytes)
    requires c.kind == Socks5 && GrantStream(c, g) && g[if g[1] == 0 then 5 else 7] == 3
    requires Allowed(Connect(c), events, env) && g <= Stream(events) && Active(Run(Connect(c), events, env))
    ensures var p := Run(Connect(c), events, env);
            p.delivered + p.input == [g[|g| - 1]] + Stream(events)[|g|..]
  {
    GrantIsLong(c, g);
    hide Run, Allowed, GrantStream, Means, Active;
    ReplyByteLeft(c, Stream(events), g);
    DataAfterGrant(c, events, env);
  }

  lemma ReplyByteLeft(c: ProxyConfig, s: bytes, g: bytes)
    requires c.kind == Socks5 && GrantStream(c, g) && |g| > 8 && g[if g[1] == 0 then 5 else 7] == 3 && g <= s
    ensures Means(c, s).used <= |s| && s[Means(c, s).used..] == [g[|g| - 1]] + s[|g|..]
  {
    hide GrantStream, Means;
    GrantTaken(c, g, s[|g|..]);
    assert g + s[|g|..] == s;
    assert s[|g| - 1..] == [s[|g| - 1]] + s[|g|..];
  }

  lemma DataAfterGrant(c: ProxyConfig, events: seq<Event>, env: Env)
    requires c.kind == Socks5 && Allowed(Connect(c), events, env) && Active(Run(Connect(c), events, env))
    ensures var p, s := Run(Connect(c), events, env), Stream(events);
            Means(c, s).used <= |s| && p.delivered + p.input == s[Means(c, s).used..]
  {
    hide Run, Allowed, Means, InTime, Mark, Items, UrgentLeft, PlainLeft;
    EveryRun(c, events, env);
    ActiveExactly(c, events, env);
  }

  // -------------------------------------------------------------------------------------------
  // What the client says
  // -------------------------------------------------------------------------------------------

  /** The methods the client offers (RFC 1928, section 3): none at all, and a password if there is one. */
  lemma GreetingOffers(c: ProxyConfig)
    ensures var g := Greeting5(c);
            && |g| >= 2 && g[0] == 5 && |g| == 2 + g[1] as int
            && forall m :: m in g[2..] <==> m == 0 || (m == 2 && Credentials(c))
  {
    var g := Greeting5(c);
    assert g[2..] == if Credentials(c) then [0, 2] else [0];
  }

  /** User name and password as the proxy reads them (RFC 1929, section 2): two counted strings, the whole
      message and nothing else, each the configured one. An empty one arrives as a NUL. */
  lemma PasswordReads(c: ProxyConfig)
    ensures var m := Password5(c);
            && |m| >= 2 && m[0] == 1
            && var n := m[1] as int;
               && |m| > 2 + n
               && m[2..2 + n] == (if c.username == [] then [0] else c.username)
               && var k := m[2 + n] as int;
                  |m| == 3 + n + k && m[3 + n..] == (if c.password == [] then [0] else c.password)
  {
    var u, p := c.username + [0], c.password + [0];
    var m, n := Password5(c), Clamp(c.username);
    assert m[1] == n;
    assert m[2..2 + n] == u[..n] && m[2 + n] == Clamp(c.password) && m[3 + n..] == p[..Clamp(c.password)];
  }
}
