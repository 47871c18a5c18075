/**
 * The proxy socket (PROXY.C): it negotiates with a SOCKS or HTTP proxy over a sub-socket while the
 * back end already uses it, then passes data through.
 *
 * Calling the back end (plug_receive, plug_sent) lets it call the proxy socket again before it
 * returns. What it does then is arbitrary: an `Env` holds its reaction to every callback, and every
 * statement below is for all of them.
 */
module ProxySocket {
  import opened Bytes
  import HttpConnect

  // -------------------------------------------------------------------------------------------
  // Configuration and messages
  // -------------------------------------------------------------------------------------------

  datatype Target = IPv4(addr: bytes) | IPv6(addr: bytes) | Name(name: bytes)

  datatype Kind = Http | Socks4 | Socks5

  datatype Config = Config(kind: Kind, username: bytes, password: bytes, target: Target, port: nat, httpRequest: bytes)

  /** Strings are C strings; the SOCKS5 client keeps the length of a name in a signed char. */
  predicate ValidConfig(c: Config) {
    && c.port < 65536
    && NulFree(c.username) && |c.username| < 32 && NulFree(c.password) && |c.password| < 32
    && match c.target
       case IPv4(a) => |a| == 4
       case IPv6(a) => |a| == 16
       case Name(n) => NulFree(n) && |n| < 512 && (c.kind == Socks5 ==> |n| <= 127)
  }

  type ProxyConfig = c: Config | ValidConfig(c) witness Config(Http, [], [], IPv4([0, 0, 0, 0]), 0, [])

  /** Version 4, CONNECT, port, address, user ID, NUL; for a name the address 0.0.0.1 and the name. */
  function Request4(c: ProxyConfig): bytes
    requires !c.target.IPv6?
  {
    [4, 1] + PutWord(c.port)
    + (if c.target.IPv4? then c.target.addr else [0, 0, 0, 1])
    + c.username + [0]
    + (if c.target.IPv4? then [] else c.target.name + [0])
  }

  function Greeting5(c: ProxyConfig): bytes {
    if c.username != [] || c.password != [] then [5, 2, 0, 2] else [5, 1, 0]
  }

  function Request5(c: ProxyConfig): bytes
    requires c.kind == Socks5
  {
    [5, 1, 0]
    + (match c.target
       case IPv4(a) => [1] + a
       case IPv6(a) => [4] + a
       case Name(n) => [3, |n|] + n)
    + PutWord(c.port)
  }

  function Clamp(s: bytes): nat {
    if |s| > 255 then 255 else if |s| < 1 then 1 else |s|
  }

  /** The user name and password message. Each part has at least one byte: an empty string lends its NUL. */
  function Password5(c: ProxyConfig): bytes {
    var (u, p) := (c.username + [0], c.password + [0]);
    [1, Clamp(c.username)] + u[..Clamp(c.username)] + [Clamp(c.password)] + p[..Clamp(c.password)]
  }

  datatype Error =
    | IPv6Unsupported | WrongReplyVersion | NoIdentd | IdentdMismatch | RequestRejected
    | WrongVersion | NoAcceptableMethod | WrongPasswordVersion | PasswordRefused
    | WrongConnectVersion | ConnectFailed(code: byte) | UnknownAddressFormat
    | NoGssapi | PasswordNotOffered | NoChap
    | HttpRejected | Unexpected

  // -------------------------------------------------------------------------------------------
  // State
  // -------------------------------------------------------------------------------------------

  const NEW := -1
  const ACTIVE := 0

  /** A byte on the sub-socket, sent as urgent data or not. */
  datatype Octet = Octet(urgent: bool, value: byte)

  function Mark(urgent: bool, data: bytes): (m: seq<Octet>)
    ensures |m| == |data| && forall i :: 0 <= i < |m| ==> m[i] == Octet(urgent, data[i])
  {
    seq(|data|, i requires 0 <= i < |data| => Octet(urgent, data[i]))
  }

  /** A call of the back end on the proxy socket. */
  datatype Call =
    | Write(data: bytes)
    | WriteUrgent(data: bytes)
    | SetFrozen(frozen: bool)

  /** The choices of the world: what the back end does during its n-th callback, how long the head
      granule of the input queue is at that time, and how much of the pending output the sub-socket
      could not take at once. */
  datatype Env = Env(react: nat -> seq<Call>, chunk: nat -> nat, backlog: nat)

  datatype Proxy = Proxy(
    cfg: ProxyConfig,
    state: int,
    freeze: bool,
    input: bytes,             // pending_input_data
    output: bytes,            // pending_output_data
    urgent: bytes,            // pending_oob_output_data
    subFrozen: bool,
    wire: seq<Octet>,         // everything written to the sub-socket
    delivered: bytes,         // everything given to plug_receive
    errors: seq<Error>,       // everything reported with plug_closing
    turns: nat,               // callbacks so far
    eaten: nat,               // bytes consumed by the negotiation
    hello: bytes,             // bytes written by the negotiation
    early: seq<Call>,         // calls of the back end before activation, and after it
    late: seq<Call>)

  predicate Active(p: Proxy) {
    p.state == ACTIVE
  }

  // -------------------------------------------------------------------------------------------
  // The back end's calls, and the callbacks they lead to
  // -------------------------------------------------------------------------------------------

  /** Size of the next piece taken from the input queue: a non-empty prefix of at most 512 bytes. */
  function PieceLength(size: nat, turns: nat, env: Env): (n: nat)
    requires size > 0
    ensures 0 < n <= size && n <= 512
  {
    var limit := if size < 512 then size else 512;
    var n := env.chunk(turns);
    if n < 1 then 1 else if n > limit then limit else n
  }

  /** What an active proxy socket never does: lose, repeat or reorder input, or let go of the
      sub-socket while it still holds input; and its output is what it was asked to write. */
  ghost predicate Kept(p: Proxy, q: Proxy) {
    && q.cfg == p.cfg && q.state == p.state && q.errors == p.errors
    && q.eaten == p.eaten && q.hello == p.hello && q.early == p.early
    && q.output == p.output && q.urgent == p.urgent
    && p.delivered <= q.delivered
    && q.delivered + q.input == p.delivered + p.input && |q.input| <= |p.input|
    && (Held(p) ==> Held(q))
    && KeptOutput(p, q)
  }

  ghost predicate KeptOutput(p: Proxy, q: Proxy) {
    p.late <= q.late && q.wire == p.wire + Items(q.late[|p.late|..])
  }

  predicate Held(p: Proxy) {
    p.input != [] ==> p.subFrozen
  }

  /** The octets a sequence of calls puts on an open wire. */
  function Items(calls: seq<Call>): seq<Octet>
    decreases |calls|
  {
    if calls == [] then [] else Item(calls[0]) + Items(calls[1..])
  }

  function Item(call: Call): seq<Octet> {
    match call
    case Write(data) => Mark(false, data)
    case WriteUrgent(data) => Mark(true, data)
    case SetFrozen(_) => []
  }

  lemma {:induction false} ItemsSplit(a: seq<Call>, b: seq<Call>)
    ensures Items(a + b) == Items(a) + Items(b)
    decreases |a|
  {
    if a == [] {
      assert a + b == b;
    } else {
      assert (a + b)[1..] == a[1..] + b;
      ItemsSplit(a[1..], b);
    }
  }

  lemma KeptRefl(p: Proxy)
    ensures Kept(p, p)
  {
    assert p.wire + [] == p.wire && p.late[|p.late|..] == [];
  }

  lemma ItemsSince(a: seq<Call>, b: seq<Call>, c: seq<Call>)
    requires a <= b <= c
    ensures Items(c[|a|..]) == Items(b[|a|..]) + Items(c[|b|..])
  {
    assert c[|a|..] == b[|a|..] + c[|b|..];
    ItemsSplit(b[|a|..], c[|b|..]);
  }

  lemma OutputTrans(p: Proxy, q: Proxy, r: Proxy)
    requires KeptOutput(p, q) && KeptOutput(q, r)
    ensures KeptOutput(p, r)
  {
    hide Items;
    ItemsSince(p.late, q.late, r.late);
    assert p.late <= q.late <= r.late;
    assert r.wire == p.wire + Items(q.late[|p.late|..]) + Items(r.late[|q.late|..]);
  }

  lemma KeptTrans(p: Proxy, q: Proxy, r: Proxy)
    requires Kept(p, q) && Kept(q, r)
    ensures Kept(p, r)
  {
    hide KeptOutput;
    OutputTrans(p, q, r);
  }

  /** sk_proxy_set_frozen on an active socket: buffered input goes first, for as long as the back end
      lets it. */
  function Unbuffer(p: Proxy, frozen: bool, env: Env): (q: Proxy)
    requires Active(p)
    ensures Kept(p, q)
    decreases |p.input|, 1, 0
  {
    hide Items;
    KeptRefl(p);
    if p.input != [] then
      var d := Drain(p.(freeze := frozen), env);
      if d.freeze then d else d.(subFrozen := frozen)
    else p.(subFrozen := frozen)
  }

  /** Its loop. */
  function Drain(p: Proxy, env: Env): (q: Proxy)
    requires Active(p)
    ensures Kept(p, q) && (q.freeze || q.input == [])
    decreases |p.input|, 0, 1
  {
    KeptRefl(p);
    if p.freeze || p.input == [] then p
    else
      var p1 := GivePiece(p, env);
      var q := Drain(p1, env);
      KeptTrans(p, p1, q);
      q
  }

  /** One turn of the loop: a piece of the input goes to the back end, which reacts. */
  function GivePiece(p: Proxy, env: Env): (q: Proxy)
    requires Active(p) && p.input != []
    ensures Kept(p, q) && |q.input| < |p.input|
    decreases |p.input|, 0, 0
  {
    KeptRefl(p);
    var n := PieceLength(|p.input|, p.turns, env);
    var p1 := p.(input := p.input[n..], delivered := p.delivered + p.input[..n], turns := p.turns + 1);
    assert Kept(p, p1) by { assert p1.delivered + p1.input == p.delivered + p.input; }
    var q := RunCalls(p1, env.react(p.turns), env);
    KeptTrans(p, p1, q);
    q
  }

  /** A call on an active socket. */
  function CallActive(p: Proxy, call: Call, env: Env): (q: Proxy)
    requires Active(p)
    ensures Kept(p, q)
    decreases |p.input|, 2, 0
  {
    var p1 := p.(late := p.late + [call], wire := p.wire + Item(call));
    assert Kept(p, p1) by {
      assert p1.late[|p.late|..] == [call];
      assert Items([call]) == Item(call) + Items([]) == Item(call);
    }
    if call.SetFrozen? then
      var q := Unbuffer(p1, call.frozen, env);
      KeptTrans(p, p1, q);
      q
    else p1
  }

  /** The calls made during one callback. */
  function RunCalls(p: Proxy, calls: seq<Call>, env: Env): (q: Proxy)
    requires Active(p)
    ensures Kept(p, q)
    decreases |p.input|, 3, |calls|
  {
    KeptRefl(p);
    if calls == [] then p
    else
      var p1 := CallActive(p, calls[0], env);
      var q := RunCalls(p1, calls[1..], env);
      KeptTrans(p, p1, q);
      q
  }

  // -------------------------------------------------------------------------------------------
  // Negotiation
  // -------------------------------------------------------------------------------------------

  /** A call before activation: writes are queued, an urgent write empties the queues first. */
  function CallInactive(p: Proxy, call: Call): Proxy {
    var q := p.(early := p.early + [call]);
    match call
    case Write(data) => q.(output := p.output + data)
    case WriteUrgent(data) => q.(output := [], urgent := data)
    case SetFrozen(frozen) => q.(freeze := frozen)
  }

  function CallOn(p: Proxy, call: Call, env: Env): Proxy {
    if Active(p) then CallActive(p, call, env) else CallInactive(p, call)
  }

  /** proxy_activate before it calls back: the sub-socket is frozen and given the pending output. */
  function Opened(p: Proxy): Proxy {
    p.(state := ACTIVE, subFrozen := true, urgent := [], output := [],
       wire := p.wire + Mark(true, p.urgent) + Mark(false, p.output))
  }

  /** The back end is told if some output went out. */
  function Notified(p: Proxy, before: nat, env: Env): (q: Proxy)
    requires Active(p)
    ensures Kept(p, q)
  {
    KeptRefl(p);
    if env.backlog < before then
      var p1 := p.(turns := p.turns + 1);
      var q := RunCalls(p1, env.react(p.turns), env);
      assert Kept(p, p1) by { KeptRefl(p); }
      KeptTrans(p, p1, q);
      q
    else p
  }

  /** proxy_activate. */
  function Activate(p: Proxy, env: Env): (q: Proxy)
    ensures Kept(Opened(p), q)
  {
    var p1 := Opened(p);
    var p2 := Notified(p1, |p.urgent| + |p.output|, env);
    if p2.freeze then p2
    else
      var q := Unbuffer(p2, false, env);
      KeptTrans(p1, p2, q);
      q
  }

  function Say(p: Proxy, message: bytes): Proxy {
    p.(hello := p.hello + message, wire := p.wire + Mark(false, message))
  }

  function Fail(p: Proxy, error: Error): Proxy {
    p.(errors := p.errors + [error])
  }

  function Consume(p: Proxy, n: nat): Proxy
    requires n <= |p.input|
  {
    p.(input := p.input[n..], eaten := p.eaten + n)
  }

  /** The first message; it is attempted at every change while the state is NEW. */
  function Open(p: Proxy): Proxy {
    match p.cfg.kind
    case Http => Say(p, p.cfg.httpRequest).(state := 1)
    case Socks4 => if p.cfg.target.IPv6? then Fail(p, IPv6Unsupported) else Say(p, Request4(p.cfg)).(state := 1)
    case Socks5 => Say(p, Greeting5(p.cfg)).(state := 1)
  }

  function Socks4Receive(p: Proxy, env: Env): Proxy {
    if p.state != 1 then Fail(p, Unexpected)
    else if |p.input| < 8 then p
    else if p.input[0] != 0 then Fail(p, WrongReplyVersion)
    else if p.input[1] != 90 then
      Fail(p, if p.input[1] == 92 then NoIdentd else if p.input[1] == 93 then IdentdMismatch else RequestRejected)
    else Activate(Consume(p, 8), env)
  }

  /** The answer to the greeting. The flag tells whether the negotiator goes on at once. */
  function Socks5Method(p: Proxy): (Proxy, bool) {
    if |p.input| < 2 then (p, false)
    else if p.input[0] != 5 then (Fail(p, WrongVersion), false)
    else
      var state := match p.input[1] case 0 => 2 case 1 => 4 case 2 => 5 case 3 => 6 case _ => NEW;
      if state == NEW then (Fail(p, NoAcceptableMethod), false) else (Consume(p, 2).(state := state), true)
  }

  /** The answer to user name and password. */
  function Socks5Password(p: Proxy): (Proxy, bool) {
    if |p.input| < 2 then (p, false)
    else if p.input[0] != 1 then (Fail(p, WrongPasswordVersion), false)
    else if p.input[1] != 0 then (Fail(p, PasswordRefused), false)
    else (Consume(p, 2).(state := 2), true)
  }

  /** Length of the reply to the request, from its first five bytes. */
  function ReplyLength(d: bytes): Option<nat>
    requires |d| >= 5
  {
    if d[3] == 1 then Some(10) else if d[3] == 4 then Some(22) else if d[3] == 3 then Some(6 + d[4] as int) else None
  }

  function Socks5Reply(p: Proxy, env: Env): Proxy {
    if |p.input| < 5 then p
    else if p.input[0] != 5 then Fail(p, WrongConnectVersion)
    else if p.input[1] != 0 then Fail(p, ConnectFailed(p.input[1]))
    else match ReplyLength(p.input)
      case None => Fail(p, UnknownAddressFormat)
      case Some(n) => if |p.input| < n then p else Activate(Consume(p, n), env)
  }

  function Socks5Answer(p: Proxy, env: Env): Proxy
    requires p.cfg.kind == Socks5
  {
    match p.state
    case 2 => Say(p, Request5(p.cfg)).(state := 3)
    case 3 => Socks5Reply(p, env)
    case 4 => Fail(p, NoGssapi)
    case 5 =>
      if p.cfg.username != [] || p.cfg.password != [] then Say(p, Password5(p.cfg)).(state := 7)
      else Fail(p, PasswordNotOffered)
    case 6 => Fail(p, NoChap)
    case _ => Fail(p, Unexpected)
  }

  function Socks5Receive(p: Proxy, env: Env): Proxy
    requires p.cfg.kind == Socks5
  {
    var (p1, go1) := if p.state == 1 then Socks5Method(p) else (p, true);
    if !go1 then p1
    else
      var (p2, go2) := if p1.state == 7 then Socks5Password(p1) else (p1, true);
      if !go2 then p2 else Socks5Answer(p2, env)
  }

  /** What the HTTP reply amounts to so far. */
  function HttpReply(p: Proxy): (r: HttpConnect.Reply)
    ensures p.eaten <= r.used <= p.eaten + |p.input|
    ensures r.Reading? ==> r.state != ACTIVE && r.pending == p.input[r.used - p.eaten..]
    ensures r.Activated? ==> r.rest == p.input[r.used - p.eaten..]
  {
    hide HttpConnect.FeedStatus, HttpConnect.FeedHeaders;
    HttpConnect.FeedAccounts(p.input, p.eaten);
    if p.state == 1 then HttpConnect.FeedStatus(p.input, p.eaten) else HttpConnect.FeedHeaders(p.input, p.eaten)
  }

  function HttpReceive(p: Proxy, env: Env): Proxy {
    if p.state != 1 && p.state != 2 then Fail(p, Unexpected)
    else match HttpReply(p)
      case Reading(state, pending, used) => p.(state := state, input := pending, eaten := used)
      case Rejected(used) => Fail(Consume(p, used - p.eaten), HttpRejected)
      case Activated(used, rest) => Activate(p.(state := 2, input := rest, eaten := used), env)
  }

  /** PROXY_CHANGE_RECEIVE. */
  function NegotiateReceive(p: Proxy, env: Env): Proxy {
    if p.state == NEW then Open(p)
    else match p.cfg.kind
      case Http => HttpReceive(p, env)
      case Socks4 => Socks4Receive(p, env)
      case Socks5 => Socks5Receive(p, env)
  }

  /** plug_proxy_receive. */
  function Receive(p: Proxy, data: bytes, env: Env): Proxy {
    if Active(p) then
      RunCalls(p.(delivered := p.delivered + data, turns := p.turns + 1), env.react(p.turns), env)
    else NegotiateReceive(p.(input := p.input + data), env)
  }

  /** plug_proxy_sent. */
  function Sent(p: Proxy, env: Env): Proxy {
    if Active(p) then RunCalls(p.(turns := p.turns + 1), env.react(p.turns), env)
    else if p.state == NEW then Open(p)
    else p
  }

  /** new_connection: the sub-socket is unfrozen and the negotiation begun. */
  function Connect(cfg: ProxyConfig): Proxy {
    Open(Blank(cfg))
  }

  function Blank(cfg: ProxyConfig): Proxy {
    Proxy(cfg, NEW, false, [], [], [], false, [], [], [], 0, 0, [], [], [])
  }

  // -------------------------------------------------------------------------------------------
  // Runs
  // -------------------------------------------------------------------------------------------

  datatype Event = Received(data: bytes) | Called(call: Call) | SentMore

  /** A frozen sub-socket delivers nothing. */
  predicate Enabled(p: Proxy, e: Event) {
    e.Received? ==> !p.subFrozen
  }

  function Apply(p: Proxy, e: Event, env: Env): Proxy {
    match e
    case Received(data) => Receive(p, data, env)
    case Called(call) => CallOn(p, call, env)
    case SentMore => Sent(p, env)
  }

  predicate Allowed(p: Proxy, events: seq<Event>, env: Env)
    decreases |events|
  {
    events == [] || (Enabled(p, events[0]) && Allowed(Apply(p, events[0], env), events[1..], env))
  }

  function Run(p: Proxy, events: seq<Event>, env: Env): Proxy
    decreases |events|
  {
    if events == [] then p else Run(Apply(p, events[0], env), events[1..], env)
  }

  function Piece(e: Event): bytes {
    if e.Received? then e.data else []
  }

  /** Everything the sub-socket delivered in a run. */
  function Stream(events: seq<Event>): bytes
    decreases |events|
  {
    if events == [] then [] else Piece(events[0]) + Stream(events[1..])
  }

  /** Index of the last urgent write, or -1. */
  function LastUrgent(calls: seq<Call>): (i: int)
    ensures -1 <= i < |calls|
    ensures i >= 0 ==> calls[i].WriteUrgent?
    ensures forall k :: i < k < |calls| ==> !calls[k].WriteUrgent?
    decreases |calls|
  {
    if calls == [] then -1
    else if calls[|calls| - 1].WriteUrgent? then |calls| - 1
    else LastUrgent(calls[..|calls| - 1])
  }

  /** What ordinary writes asked for. */
  function Plain(calls: seq<Call>): bytes
    decreases |calls|
  {
    if calls == [] then []
    else Plain(calls[..|calls| - 1]) + (if calls[|calls| - 1].Write? then calls[|calls| - 1].data else [])
  }

  /** Of the calls made before activation, the last urgent write and the ordinary writes after it
      are still wanted; an urgent write cancels everything before it. */
  function UrgentLeft(calls: seq<Call>): bytes {
    if LastUrgent(calls) < 0 then [] else calls[LastUrgent(calls)].data
  }

  function PlainLeft(calls: seq<Call>): bytes {
    Plain(calls[LastUrgent(calls) + 1..])
  }

  /** The freeze state last asked for. */
  function LastFreeze(calls: seq<Call>): bool
    decreases |calls|
  {
    if calls == [] then false
    else if calls[|calls| - 1].SetFrozen? then calls[|calls| - 1].frozen
    else LastFreeze(calls[..|calls| - 1])
  }

  /** How a proxy socket must stand after its sub-socket has delivered `stream`. */
  ghost predicate Sound(p: Proxy, stream: bytes) {
    && p.eaten <= |stream|
    && p.delivered + p.input == stream[p.eaten..]
    && (if Active(p) then SoundActive(p) else SoundInactive(p))
  }

  ghost predicate SoundActive(p: Proxy) {
    && Held(p) && p.output == [] && p.urgent == []
    && p.wire == Mark(false, p.hello) + Mark(true, UrgentLeft(p.early)) + Mark(false, PlainLeft(p.early))
        + Items(p.late)
  }

  ghost predicate SoundInactive(p: Proxy) {
    && p.delivered == [] && !p.subFrozen && p.late == []
    && p.wire == Mark(false, p.hello)
    && p.urgent == UrgentLeft(p.early) && p.output == PlainLeft(p.early) && p.freeze == LastFreeze(p.early)
  }

  lemma LeftAfter(calls: seq<Call>, call: Call)
    ensures var all := calls + [call];
            && UrgentLeft(all) == (if call.WriteUrgent? then call.data else UrgentLeft(calls))
            && PlainLeft(all) == (if call.Write? then PlainLeft(calls) + call.data
                                  else if call.WriteUrgent? then [] else PlainLeft(calls))
            && LastFreeze(all) == (if call.SetFrozen? then call.frozen else LastFreeze(calls))
  {
    hide LastUrgent, Plain, LastFreeze;
    var all, k := calls + [call], LastUrgent(calls);
    LastSnoc(calls, call);
    if call.WriteUrgent? {
      assert all[LastUrgent(all) + 1..] == [];
      PlainNone();
    } else {
      assert all[k + 1..] == calls[k + 1..] + [call];
      PlainSnoc(calls[k + 1..], call);
    }
  }

  lemma LastSnoc(calls: seq<Call>, call: Call)
    ensures LastUrgent(calls + [call]) == if call.WriteUrgent? then |calls| else LastUrgent(calls)
    ensures LastFreeze(calls + [call]) == if call.SetFrozen? then call.frozen else LastFreeze(calls)
  {
    assert (calls + [call])[..|calls|] == calls;
  }

  lemma PlainNone()
    ensures Plain([]) == []
  {
  }

  lemma PlainSnoc(calls: seq<Call>, call: Call)
    ensures Plain(calls + [call]) == if call.Write? then Plain(calls) + call.data else Plain(calls)
  {
    assert (calls + [call])[..|calls|] == calls;
    assert Plain(calls) + [] == Plain(calls);
  }

  lemma InactiveCallSound(p: Proxy, stream: bytes, call: Call)
    requires Sound(p, stream) && !Active(p)
    ensures Sound(CallInactive(p, call), stream)
  {
    hide UrgentLeft, PlainLeft, LastFreeze;
    LeftAfter(p.early, call);
  }

  lemma KeptSound(p: Proxy, stream: bytes, q: Proxy)
    requires Sound(p, stream) && Active(p) && Kept(p, q)
    ensures Sound(q, stream)
  {
    hide Mark, UrgentLeft, PlainLeft, Items;
    var x := q.late[|p.late|..];
    assert q.late == p.late + x;
    ItemsSplit(p.late, x);
    var front := Mark(false, p.hello) + Mark(true, UrgentLeft(p.early)) + Mark(false, PlainLeft(p.early));
    assert front + Items(p.late) + Items(x) == front + (Items(p.late) + Items(x));
  }

  /** Negotiation consumes from the front of the input and writes to the wire, nothing more. */
  ghost predicate Progress(p: Proxy, q: Proxy) {
    && !Active(p) && !Active(q)
    && q == p.(state := q.state, input := q.input, eaten := q.eaten, errors := q.errors,
               hello := q.hello, wire := q.wire)
    && p.eaten <= q.eaten <= p.eaten + |p.input| && q.input == p.input[q.eaten - p.eaten..]
    && p.hello <= q.hello && q.wire == p.wire + Mark(false, q.hello[|p.hello|..])
  }

  lemma ProgressSound(p: Proxy, stream: bytes, q: Proxy)
    requires Sound(p, stream) && Progress(p, q)
    ensures Sound(q, stream)
  {
    assert q.hello == p.hello + q.hello[|p.hello|..];
    assert [] + q.input == q.input && [] + p.input == p.input;
    assert stream[p.eaten..][q.eaten - p.eaten..] == stream[q.eaten..];
    assert Mark(false, p.hello) + Mark(false, q.hello[|p.hello|..]) == Mark(false, q.hello);
  }

  lemma ProgressTrans(p: Proxy, q: Proxy, r: Proxy)
    requires Progress(p, q) && Progress(q, r)
    ensures Progress(p, r)
  {
    var x, y := q.hello[|p.hello|..], r.hello[|q.hello|..];
    assert r.hello[|p.hello|..] == x + y;
    assert p.wire + Mark(false, x) + Mark(false, y) == p.wire + Mark(false, x + y);
  }

  lemma Quiet(p: Proxy, q: Proxy)
    requires !Active(p) && !Active(q) && q == p.(state := q.state, errors := q.errors)
    ensures Progress(p, q)
  {
    assert p.wire + [] == p.wire && p.hello[|p.hello|..] == [];
  }

  lemma Ate(p: Proxy, n: nat, q: Proxy)
    requires n <= |p.input| && !Active(p) && !Active(q) && q == Consume(p, n).(state := q.state, errors := q.errors)
    ensures Progress(p, q)
  {
    assert p.wire + [] == p.wire && p.hello[|p.hello|..] == [];
  }

  lemma Said(p: Proxy, m: bytes, state: int)
    requires !Active(p) && state != ACTIVE
    ensures Progress(p, Say(p, m).(state := state))
  {
    assert (p.hello + m)[|p.hello|..] == m;
  }

  lemma OpenProgress(p: Proxy)
    requires !Active(p)
    ensures Progress(p, Open(p))
  {
    match p.cfg.kind
    case Http => Said(p, p.cfg.httpRequest, 1);
    case Socks4 =>
      if p.cfg.target.IPv6? { Quiet(p, Open(p)); } else { Said(p, Request4(p.cfg), 1); }
    case Socks5 => Said(p, Greeting5(p.cfg), 1);
  }

  lemma ConnectSound(cfg: ProxyConfig)
    ensures Sound(Connect(cfg), []) && !Active(Connect(cfg))
  {
    hide Open;
    assert Sound(Blank(cfg), []);
    OpenProgress(Blank(cfg));
    ProgressSound(Blank(cfg), [], Connect(cfg));
  }

  /** Where a negotiator leaves the socket: somewhere in the negotiation, or activated from there. */
  ghost predicate Reaches(p: Proxy, q: Proxy, env: Env) {
    Progress(p, q) || exists mid :: Progress(p, mid) && q == Activate(mid, env)
  }

  lemma ReachesVia(p: Proxy, mid: Proxy, q: Proxy, env: Env)
    requires Progress(p, mid) && Reaches(mid, q, env)
    ensures Reaches(p, q, env)
  {
    if Progress(mid, q) {
      ProgressTrans(p, mid, q);
    } else {
      var last :| Progress(mid, last) && q == Activate(last, env);
      ProgressTrans(p, mid, last);
    }
  }

  lemma Socks4Reaches(p: Proxy, env: Env)
    requires !Active(p)
    ensures Reaches(p, Socks4Receive(p, env), env)
  {
    hide Activate;
    if p.state == 1 && |p.input| >= 8 && p.input[0] == 0 && p.input[1] == 90 {
      Ate(p, 8, Consume(p, 8));
    } else {
      Quiet(p, Socks4Receive(p, env));
    }
  }

  lemma Socks5AnswerReaches(p: Proxy, env: Env)
    requires !Active(p) && p.cfg.kind == Socks5
    ensures Reaches(p, Socks5Answer(p, env), env)
  {
    hide Activate, Password5, Request5;
    var q := Socks5Answer(p, env);
    if p.state == 3 {
      if |p.input| >= 5 && p.input[0] == 5 && p.input[1] == 0 && ReplyLength(p.input).Some?
        && |p.input| >= ReplyLength(p.input).value {
        var n := ReplyLength(p.input).value;
        Ate(p, n, Consume(p, n));
      } else {
        Quiet(p, q);
      }
    } else if p.state == 2 {
      Said(p, Request5(p.cfg), 3);
    } else if p.state == 5 && (p.cfg.username != [] || p.cfg.password != []) {
      Said(p, Password5(p.cfg), 7);
    } else {
      Quiet(p, q);
    }
  }

  lemma Socks5MethodProgress(p: Proxy)
    requires !Active(p)
    ensures Progress(p, Socks5Method(p).0)
  {
    var (q, go) := Socks5Method(p);
    if go { Ate(p, 2, q); } else { Quiet(p, q); }
  }

  lemma Socks5PasswordProgress(p: Proxy)
    requires !Active(p)
    ensures Progress(p, Socks5Password(p).0)
  {
    var (q, go) := Socks5Password(p);
    if go { Ate(p, 2, q); } else { Quiet(p, q); }
  }

  lemma Socks5Reaches(p: Proxy, env: Env)
    requires !Active(p) && p.cfg.kind == Socks5
    ensures Reaches(p, Socks5Receive(p, env), env)
  {
    hide Socks5Answer, Socks5Method, Socks5Password, Reaches;
    Quiet(p, p);
    Socks5MethodProgress(p);
    var (p1, go1) := if p.state == 1 then Socks5Method(p) else (p, true);
    ProgressReaches(p, p1, env);
    if go1 {
      Quiet(p1, p1);
      Socks5PasswordProgress(p1);
      var (p2, go2) := if p1.state == 7 then Socks5Password(p1) else (p1, true);
      ProgressTrans(p, p1, p2);
      ProgressReaches(p, p2, env);
      if go2 {
        Socks5AnswerReaches(p2, env);
        ReachesVia(p, p2, Socks5Answer(p2, env), env);
      }
    }
  }

  lemma HttpReaches(p: Proxy, env: Env)
    requires !Active(p)
    ensures Reaches(p, HttpReceive(p, env), env)
  {
    hide Activate, HttpReply, Progress;
    if p.state != 1 && p.state != 2 {
      Quiet(p, HttpReceive(p, env));
    } else {
      var r := HttpReply(p);
      var mid := Consume(p, r.used - p.eaten);
      match r
      case Reading(state, _, _) => Ate(p, r.used - p.eaten, mid.(state := state));
      case Rejected(_) => Ate(p, r.used - p.eaten, Fail(mid, HttpRejected));
      case Activated(_, _) => Ate(p, r.used - p.eaten, mid.(state := 2));
    }
  }

  lemma NegotiationReaches(p: Proxy, env: Env)
    requires !Active(p)
    ensures Reaches(p, NegotiateReceive(p, env), env)
  {
    hide Reaches;
    if p.state == NEW {
      OpenProgress(p);
      assert Reaches(p, Open(p), env) by { ProgressReaches(p, Open(p), env); }
    } else {
      match p.cfg.kind
      case Http => HttpReaches(p, env);
      case Socks4 => Socks4Reaches(p, env);
      case Socks5 => Socks5Reaches(p, env);
    }
  }

  lemma ProgressReaches(p: Proxy, q: Proxy, env: Env)
    requires Progress(p, q)
    ensures Reaches(p, q, env)
  {
  }

  lemma ActivateSound(p: Proxy, stream: bytes, env: Env)
    requires Sound(p, stream) && !Active(p)
    ensures Sound(Activate(p, env), stream) && Active(Activate(p, env))
  {
    hide Activate;
    var q := Opened(p);
    assert q.wire + [] == q.wire;
    assert Sound(q, stream);
    KeptSound(q, stream, Activate(p, env));
  }

  lemma ReceiveSound(p: Proxy, stream: bytes, data: bytes, env: Env)
    requires Sound(p, stream) && Enabled(p, Received(data))
    ensures Sound(Receive(p, data, env), stream + data)
  {
    hide RunCalls, NegotiateReceive, Activate;
    assert (stream + data)[p.eaten..] == stream[p.eaten..] + data;
    if Active(p) {
      assert p.input == [] && p.delivered + [] == p.delivered;
      var p1 := p.(delivered := p.delivered + data, turns := p.turns + 1);
      assert p1.delivered + [] == p1.delivered;
      KeptSound(p1, stream + data, RunCalls(p1, env.react(p.turns), env));
    } else {
      var p1 := p.(input := p.input + data);
      assert p1.delivered + p1.input == p.delivered + p.input + data;
      NegotiationReaches(p1, env);
      var q := NegotiateReceive(p1, env);
      if Progress(p1, q) {
        ProgressSound(p1, stream + data, q);
      } else {
        var mid :| Progress(p1, mid) && q == Activate(mid, env);
        ProgressSound(p1, stream + data, mid);
        ActivateSound(mid, stream + data, env);
      }
    }
  }

  lemma SentSound(p: Proxy, stream: bytes, env: Env)
    requires Sound(p, stream)
    ensures Sound(Sent(p, env), stream)
  {
    hide RunCalls, Open, Mark, UrgentLeft, PlainLeft, Items;
    if Active(p) {
      var p1 := p.(turns := p.turns + 1);
      KeptSound(p1, stream, RunCalls(p1, env.react(p.turns), env));
    } else if p.state == NEW {
      OpenProgress(p);
      ProgressSound(p, stream, Open(p));
    }
  }

  lemma ApplySound(p: Proxy, stream: bytes, e: Event, env: Env)
    requires Sound(p, stream) && Enabled(p, e)
    ensures Sound(Apply(p, e, env), stream + Piece(e))
  {
    hide Sound, Receive, Sent, CallActive, CallInactive;
    assert stream + [] == stream;
    match e
    case Received(data) => ReceiveSound(p, stream, data, env);
    case Called(call) =>
      if Active(p) { KeptSound(p, stream, CallActive(p, call, env)); } else { InactiveCallSound(p, stream, call); }
    case SentMore => SentSound(p, stream, env);
  }

  lemma {:induction false} RunSound(p: Proxy, stream: bytes, events: seq<Event>, env: Env)
    requires Sound(p, stream) && Allowed(p, events, env)
    ensures Sound(Run(p, events, env), stream + Stream(events))
    decreases |events|
  {
    hide Sound, Apply, Piece;
    if events == [] {
      assert stream + [] == stream;
    } else {
      ApplySound(p, stream, events[0], env);
      RunSound(Apply(p, events[0], env), stream + Piece(events[0]), events[1..], env);
      assert stream + Piece(events[0]) + Stream(events[1..]) == stream + Stream(events);
    }
  }

  /** Over every run, whatever the back end does in its callbacks: an active socket that still holds
      input keeps its sub-socket frozen; the back end has been given the stream after the negotiation
      in order, up to what is still held; and the wire has carried the negotiation, then the last
      urgent write and the ordinary writes after it, then every later write as it was made. */
  lemma EveryRun(cfg: ProxyConfig, events: seq<Event>, env: Env)
    requires Allowed(Connect(cfg), events, env)
    ensures var p, stream := Run(Connect(cfg), events, env), Stream(events);
            && p.eaten <= |stream|
            && (Active(p) ==>
                  && (p.input != [] ==> p.subFrozen)
                  && p.delivered + p.input == stream[p.eaten..]
                  && p.wire == Mark(false, p.hello) + Mark(true, UrgentLeft(p.early)) + Mark(false, PlainLeft(p.early))
                               + Items(p.late))
            && (!Active(p) ==>
                  p.delivered == [] && p.late == [] && p.wire == Mark(false, p.hello) && p.input == stream[p.eaten..])
  {
    ConnectSound(cfg);
    RunSound(Connect(cfg), [], events, env);
    assert [] + Stream(events) == Stream(events);
    var p := Run(Connect(cfg), events, env);
    assert [] + p.input == p.input;
  }
}
