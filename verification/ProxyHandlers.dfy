/**
 * The proxy socket record (struct Socket_proxy_tag) and its functions, with the source's fields and
 * loops. Every function is proved to do what `ProxySocket` says, also when the back end calls the
 * proxy socket again from within a callback.
 */
module ProxyHandlers {
  import opened Bytes
  import opened ProxySocket
  import HttpConnect

  class ProxyRecord {
    const cfg: ProxyConfig
    const env: Env
    var state: int
    var freeze: bool
    var pendingInput: bytes
    var pendingOutput: bytes
    var pendingOob: bytes
    // The outside world: the sub-socket and the back end.
    var subFrozen: bool
    var subWritten: seq<Octet>
    var backEndGot: bytes
    var backEndErrors: seq<Error>
    var turns: nat
    // Book-keeping for the statements about runs.
    ghost var eaten: nat
    ghost var hello: bytes
    ghost var early: seq<Call>
    ghost var late: seq<Call>

    ghost function View(): Proxy
      reads this
    {
      Proxy(cfg, state, freeze, pendingInput, pendingOutput, pendingOob, subFrozen, subWritten, backEndGot,
            backEndErrors, turns, eaten, hello, early, late)
    }

    /** new_connection. */
    constructor (cfg: ProxyConfig, env: Env)
      ensures View() == Connect(cfg) && this.env == env
    {
      this.cfg := cfg;
      this.env := env;
      state, freeze := NEW, false;
      pendingInput, pendingOutput, pendingOob := [], [], [];
      subFrozen, subWritten := false, [];
      backEndGot, backEndErrors, turns := [], [], 0;
      eaten, hello, early, late := 0, [], [], [];
      new;
      Begin();
    }

    // ---- sk_write and plug_closing, as the negotiators use them ------------------------------

    method Say(message: bytes)
      modifies this`subWritten, this`hello
      ensures View() == ProxySocket.Say(old(View()), message)
    {
      subWritten := subWritten + Mark(false, message);
      hello := hello + message;
    }

    method Fail(error: Error)
      modifies this`backEndErrors
      ensures View() == ProxySocket.Fail(old(View()), error)
    {
      backEndErrors := backEndErrors + [error];
    }

    /** bufchain_consume on the input queue. */
    method Consume(n: nat)
      requires n <= |pendingInput|
      modifies this`pendingInput, this`eaten
      ensures View() == ProxySocket.Consume(old(View()), n)
    {
      pendingInput := pendingInput[n..];
      eaten := eaten + n;
    }

    // ---- calls of the back end ----------------------------------------------------------------

    /** sk_proxy_write. */
    method Write(data: bytes)
      modifies this
      ensures View() == CallOn(old(View()), Call.Write(data), env)
    {
      if state != ACTIVE {
        pendingOutput := pendingOutput + data;
        early := early + [Call.Write(data)];
      } else {
        subWritten := subWritten + Mark(false, data);
        late := late + [Call.Write(data)];
      }
    }

    /** sk_proxy_write_oob. */
    method WriteOob(data: bytes)
      modifies this
      ensures View() == CallOn(old(View()), WriteUrgent(data), env)
    {
      if state != ACTIVE {
        pendingOutput := [];
        pendingOob := [];
        pendingOob := pendingOob + data;
        early := early + [WriteUrgent(data)];
      } else {
        subWritten := subWritten + Mark(true, data);
        late := late + [WriteUrgent(data)];
      }
    }

    /** sk_proxy_set_frozen, called by the back end. */
    method SetFrozenByBackEnd(frozen: bool)
      modifies this
      ensures View() == CallOn(old(View()), SetFrozen(frozen), env)
      decreases |pendingInput|, 2, 0
    {
      hide Unbuffer;
      if state != ACTIVE {
        early := early + [SetFrozen(frozen)];
        freeze := frozen;
      } else {
        late := late + [SetFrozen(frozen)];
        assert subWritten + [] == subWritten;
        SetFrozenActive(frozen);
      }
    }

    /** sk_proxy_set_frozen on an active socket. The buffered input goes out in pieces; each call of
        plug_receive may freeze the socket again, so `freeze` is looked at every time. */
    method SetFrozenActive(frozen: bool)
      requires state == ACTIVE
      modifies this
      ensures View() == Unbuffer(old(View()), frozen, env)
      decreases |pendingInput|, 1, 0
    {
      hide GivePiece, Kept;
      if |pendingInput| > 0 {
        freeze := frozen;
        ghost var start := View();
        while !freeze && |pendingInput| > 0
          invariant state == ACTIVE && |pendingInput| <= old(|pendingInput|)
          invariant Drain(start, env) == Drain(View(), env)
          decreases |pendingInput|
        {
          HandOver();
        }
        if freeze {
          return;
        }
      }
      subFrozen := frozen;
    }

    /** One piece from the head of the queue. */
    method HandOver()
      requires state == ACTIVE && pendingInput != []
      modifies this
      ensures View() == GivePiece(old(View()), env) && state == ACTIVE && |pendingInput| < old(|pendingInput|)
      decreases |pendingInput|, 0, 0
    {
      hide RunCalls;
      var len := PieceLength(|pendingInput|, turns, env);
      var data := pendingInput[..len];
      pendingInput := pendingInput[len..];
      PlugReceive(data);
    }

    /** plug_receive: the back end gets the data and reacts. */
    method PlugReceive(data: bytes)
      requires state == ACTIVE
      modifies this
      ensures View() == var p := old(View());
                        RunCalls(p.(delivered := p.delivered + data, turns := p.turns + 1), env.react(p.turns), env)
      decreases |pendingInput|, 4, 0
    {
      hide RunCalls;
      backEndGot := backEndGot + data;
      turns := turns + 1;
      React(env.react(turns - 1));
    }

    /** The calls the back end makes before it returns from a callback. */
    method React(calls: seq<Call>)
      requires state == ACTIVE
      modifies this
      ensures View() == RunCalls(old(View()), calls, env) && state == ACTIVE
      decreases |pendingInput|, 3, |calls|
    {
      hide CallActive;
      if calls != [] {
        match calls[0] {
          case Write(data) => Write(data);
          case WriteUrgent(data) => WriteOob(data);
          case SetFrozen(frozen) => SetFrozenByBackEnd(frozen);
        }
        React(calls[1..]);
      }
    }

    // ---- negotiation --------------------------------------------------------------------------

    /** The loop that hands a queue to the sub-socket piece by piece, as prefix and consume find it. */
    method Flush(urgent: bool, queue: bytes)
      modifies this`subWritten
      ensures subWritten == old(subWritten) + Mark(urgent, queue)
    {
      var rest := queue;
      while rest != []
        invariant |rest| <= |queue| && rest == queue[|queue| - |rest|..]
        invariant subWritten == old(subWritten) + Mark(urgent, queue[..|queue| - |rest|])
        decreases |rest|
      {
        var len: nat :| 0 < len <= |rest|;
        subWritten := subWritten + Mark(urgent, rest[..len]);
        rest := rest[len..];
      }
      assert queue[..|queue|] == queue;
    }

    /** The first part of proxy_activate: freeze the sub-socket and empty the output queues. */
    method OpenUp()
      modifies this
      ensures View() == Opened(old(View()))
    {
      hide Mark;
      state := ACTIVE;
      subFrozen := true;
      Flush(true, pendingOob);
      pendingOob := [];
      Flush(false, pendingOutput);
      pendingOutput := [];
    }

    /** plug_sent, if some of the output went out. */
    method Notify(before: nat)
      requires state == ACTIVE
      modifies this
      ensures View() == Notified(old(View()), before, env) && state == ACTIVE
    {
      hide RunCalls;
      if env.backlog < before {
        turns := turns + 1;
        React(env.react(turns - 1));
      }
    }

    /** proxy_activate. */
    method ActivateNow()
      modifies this
      ensures View() == Activate(old(View()), env)
    {
      hide Notified, Unbuffer, Kept;
      var before := |pendingOob| + |pendingOutput|;
      OpenUp();
      Notify(before);
      if !freeze {
        SetFrozenActive(false);
      }
    }

    /** The part of every negotiator for PROXY_STATE_NEW. */
    method Begin()
      modifies this
      ensures View() == Open(old(View()))
    {
      hide Request4, Greeting5;
      match cfg.kind {
        case Http =>
          Say(cfg.httpRequest);
        case Socks4 =>
          if cfg.target.IPv6? {
            Fail(IPv6Unsupported);
            return;
          }
          Say(Request4(cfg));
        case Socks5 =>
          Say(Greeting5(cfg));
      }
      state := 1;
    }

    /** proxy_socks4_negotiate, for PROXY_CHANGE_RECEIVE. */
    method Socks4Negotiate()
      requires state != NEW
      modifies this
      ensures View() == Socks4Receive(old(View()), env)
    {
      hide Activate;
      if state == 1 {
        if |pendingInput| < 8 {
          return;
        }
        var data := pendingInput[..8];
        if data[0] != 0 {
          Fail(WrongReplyVersion);
          return;
        }
        if data[1] != 90 {
          if data[1] == 92 { Fail(NoIdentd); }
          else if data[1] == 93 { Fail(IdentdMismatch); }
          else { Fail(RequestRejected); }
          return;
        }
        Consume(8);
        ActivateNow();
        return;
      }
      Fail(Unexpected);
    }

    /** proxy_socks5_negotiate, for PROXY_CHANGE_RECEIVE. A state change lets the next part run at once. */
    method Socks5Negotiate()
      requires state != NEW && cfg.kind == Socks5
      modifies this
      ensures View() == Socks5Receive(old(View()), env)
    {
      hide Socks5Answer;
      if state == 1 {
        if |pendingInput| < 2 {
          return;
        }
        if pendingInput[0] != 5 {
          Fail(WrongVersion);
          return;
        }
        if pendingInput[1] == 0 { state := 2; }
        else if pendingInput[1] == 1 { state := 4; }
        else if pendingInput[1] == 2 { state := 5; }
        else if pendingInput[1] == 3 { state := 6; }
        else {
          Fail(NoAcceptableMethod);
          return;
        }
        Consume(2);
      }
      if state == 7 {
        if |pendingInput| < 2 {
          return;
        }
        if pendingInput[0] != 1 {
          Fail(WrongPasswordVersion);
          return;
        }
        if pendingInput[1] != 0 {
          Fail(PasswordRefused);
          return;
        }
        Consume(2);
        state := 2;
      }
      Socks5Continue();
    }

    method Socks5Continue()
      requires cfg.kind == Socks5
      modifies this
      ensures View() == Socks5Answer(old(View()), env)
    {
      hide Activate, Request5, Password5;
      if state == 2 {
        Say(Request5(cfg));
        state := 3;
      } else if state == 3 {
        Socks5AwaitReply();
      } else if state == 4 {
        Fail(NoGssapi);
      } else if state == 5 {
        if cfg.username != [] || cfg.password != [] {
          Say(Password5(cfg));
          state := 7;
        } else {
          Fail(PasswordNotOffered);
        }
      } else if state == 6 {
        Fail(NoChap);
      } else {
        Fail(Unexpected);
      }
    }

    method Socks5AwaitReply()
      modifies this
      ensures View() == Socks5Reply(old(View()), env)
    {
      hide Activate;
      if |pendingInput| < 5 {
        return;
      }
      var data := pendingInput[..5];
      if data[0] != 5 {
        Fail(WrongConnectVersion);
        return;
      }
      if data[1] != 0 {
        Fail(ConnectFailed(data[1]));
        return;
      }
      var len := 6;
      if data[3] == 1 { len := len + 4; }
      else if data[3] == 4 { len := len + 16; }
      else if data[3] == 3 { len := len + data[4] as int; }
      else {
        Fail(UnknownAddressFormat);
        return;
      }
      if |pendingInput| < len {
        return;
      }
      Consume(len);
      ActivateNow();
    }

    /** The header loop of proxy_http_negotiate. */
    method HttpHeaders() returns (done: bool)
      modifies this`pendingInput, this`eaten
      ensures var (n, d) := HttpConnect.Headers(old(pendingInput));
              View() == ProxySocket.Consume(old(View()), n) && done == d
    {
      hide HttpConnect.LineEndFrom, HttpConnect.Headers;
      HttpConnect.HeadersByLine(pendingInput);
      var eol := HttpConnect.GetLineEnd(pendingInput);
      ghost var start := pendingInput;
      ghost var n := 0;
      while eol > 2
        invariant n <= |start| && View() == ProxySocket.Consume(old(View()), n)
        invariant eol == HttpConnect.LineEnd(pendingInput)
        invariant HttpConnect.Headers(start).0 == n + HttpConnect.Headers(pendingInput).0
        invariant HttpConnect.Headers(start).1 == HttpConnect.Headers(pendingInput).1
        decreases |pendingInput|
      {
        HttpConnect.HeadersByLine(pendingInput);
        n := n + eol;
        Consume(eol);
        eol := HttpConnect.GetLineEnd(pendingInput);
      }
      HttpConnect.HeadersByLine(pendingInput);
      done := eol == 2;
      if done {
        n := n + 2;
        Consume(2);
      }
    }

    /** The status line part of proxy_http_negotiate; `next` tells whether the headers follow. */
    method HttpStatus() returns (next: bool)
      modifies this
      ensures var p, r := old(View()), HttpConnect.FeedStatus(old(pendingInput), old(eaten));
              var end := HttpConnect.LineEnd(p.input);
              if next then
                && end > 2 && View() == ProxySocket.Consume(p, end).(state := 2)
                && r == HttpConnect.FeedHeaders(p.input[end..], p.eaten + end)
              else if r.Reading? then
                View() == p && r == HttpConnect.Reading(1, p.input, p.eaten)
              else
                && r.Rejected? && p.eaten <= r.used <= p.eaten + |p.input|
                && View() == ProxySocket.Fail(ProxySocket.Consume(p, r.used - p.eaten), HttpRejected)
    {
      hide HttpConnect.LineEndFrom, HttpConnect.Headers, HttpConnect.FeedHeaders, HttpConnect.ScanStatus;
      var eol := HttpConnect.GetLineEnd(pendingInput);
      if eol < 0 {
        return false;
      }
      var scan := HttpConnect.ScanStatus(pendingInput);
      if !scan.At? {
        Fail(HttpRejected);
        return false;
      }
      HttpConnect.HeaderBytesFollow(pendingInput);
      var good := scan.pos < |pendingInput| && pendingInput[scan.pos] == '2' as int;
      Consume(eol);
      if !good {
        Fail(HttpRejected);
        return false;
      }
      assert |pendingInput| > 0;
      state := 2;
      next := true;
    }

    /** The header part. */
    method HttpFinish()
      requires state == 2
      modifies this
      ensures View() == var p := old(View());
                        match HttpConnect.FeedHeaders(p.input, p.eaten)
                        case Reading(_, pending, used) => p.(input := pending, eaten := used)
                        case Activated(used, rest) => Activate(p.(input := rest, eaten := used), env)
                        case Rejected(_) => p
    {
      hide Activate, HttpConnect.Headers;
      var done := HttpHeaders();
      if done {
        ActivateNow();
      }
    }

    /** proxy_http_negotiate, for PROXY_CHANGE_RECEIVE. */
    method HttpNegotiate()
      requires state != NEW
      modifies this
      ensures View() == HttpReceive(old(View()), env)
    {
      hide Activate, HttpConnect.LineEnd, HttpConnect.FeedStatus, HttpConnect.FeedHeaders;
      HttpConnect.FeedAccounts(pendingInput, eaten);
      if state != 1 && state != 2 {
        Fail(Unexpected);
        return;
      }
      if state == 1 {
        var next := HttpStatus();
        if !next {
          return;
        }
        HttpConnect.FeedAccounts(pendingInput, eaten);
      }
      HttpFinish();
    }

    // ---- the plug below -----------------------------------------------------------------------

    /** plug_proxy_receive. */
    method Received(data: bytes)
      modifies this
      ensures View() == ProxySocket.Receive(old(View()), data, env)
    {
      hide RunCalls, HttpReceive, Socks4Receive, Socks5Receive, Open;
      if state != ACTIVE {
        pendingInput := pendingInput + data;
        if state == NEW {
          Begin();
        } else {
          match cfg.kind {
            case Http => HttpNegotiate();
            case Socks4 => Socks4Negotiate();
            case Socks5 => Socks5Negotiate();
          }
        }
      } else {
        PlugReceive(data);
      }
    }

    /** plug_proxy_sent. */
    method SentSome()
      modifies this
      ensures View() == Sent(old(View()), env)
    {
      hide RunCalls, Open;
      if state != ACTIVE {
        if state == NEW {
          Begin();
        }
      } else {
        turns := turns + 1;
        React(env.react(turns - 1));
      }
    }
  }
}
