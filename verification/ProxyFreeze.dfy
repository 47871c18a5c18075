/**
 * What becomes of the back end's freeze requests (sk_proxy_set_frozen in PROXY.C), also of those it
 * makes from within the deliveries that an earlier request has set off.
 */
module ProxyFreeze {
  import opened Bytes
  import opened ProxySocket

  /** `freeze` says that there is input to hold back. */
  predicate Holding(p: Proxy) {
    p.freeze ==> p.input != []
  }

  /** While there is input to hold back, `freeze` is what the back end asked for last. */
  predicate AsAsked(p: Proxy) {
    p.input != [] ==> p.freeze == LastFreeze(p.early + p.late)
  }

  // -------------------------------------------------------------------------------------------
  // Through the deliveries and the calls they lead to
  // -------------------------------------------------------------------------------------------

  /** With input in the queue, the sub-socket ends up frozen if and only if input is still left. */
  lemma {:induction false} FrozenIffLeft(p: Proxy, frozen: bool, env: Env)
    requires Active(p)
    ensures var q := Unbuffer(p, frozen, env);
            && (p.input != [] ==> (q.freeze <==> q.input != []))
            && (p.input != [] && Held(p) ==> (q.subFrozen <==> q.input != []))
            && (AsAsked(p.(freeze := frozen)) ==> AsAsked(q))
    decreases |p.input|, 1, 0
  {
    hide Drain, KeptOutput, LastFreeze;
    if p.input != [] {
      DrainFreezes(p.(freeze := frozen), env);
      if frozen {
        DrainDone(p.(freeze := frozen), env);
      }
    }
  }

  lemma {:induction false} DrainFreezes(p: Proxy, env: Env)
    requires Active(p) && Holding(p)
    ensures var q := Drain(p, env);
            && (q.freeze <==> q.input != [])
            && (AsAsked(p) ==> AsAsked(q))
    decreases |p.input|, 0, 1
  {
    hide GivePiece, KeptOutput, AsAsked;
    if !p.freeze && p.input != [] {
      PieceFreezes(p, env);
      DrainFreezes(GivePiece(p, env), env);
    }
  }

  lemma {:induction false} PieceFreezes(p: Proxy, env: Env)
    requires Active(p) && p.input != [] && !p.freeze
    ensures var q := GivePiece(p, env);
            && Holding(q)
            && (AsAsked(p) ==> AsAsked(q))
    decreases |p.input|, 0, 0
  {
    hide RunCalls, KeptOutput, LastFreeze;
    RunCallsFreezes(Given(p, env), env.react(p.turns), env);
  }

  /** A piece has been handed over, and the back end is about to react. */
  function Given(p: Proxy, env: Env): Proxy
    requires p.input != []
  {
    var n := PieceLength(|p.input|, p.turns, env);
    p.(input := p.input[n..], delivered := p.delivered + p.input[..n], turns := p.turns + 1)
  }

  lemma {:induction false} CallFreezes(p: Proxy, call: Call, env: Env)
    requires Active(p)
    ensures var q := CallActive(p, call, env);
            && (Holding(p) ==> Holding(q))
            && (AsAsked(p) ==> AsAsked(q))
    decreases |p.input|, 2, 0
  {
    hide Unbuffer, KeptOutput, LastFreeze;
    var p1 := p.(late := p.late + [call], wire := p.wire + Item(call));
    LastSnoc(p.early + p.late, call);
    assert p1.early + p1.late == p.early + p.late + [call];
    if call.SetFrozen? {
      FrozenIffLeft(p1, call.frozen, env);
      UnbufferEmpty(p1, call.frozen, env);
    }
  }

  lemma UnbufferEmpty(p: Proxy, frozen: bool, env: Env)
    requires Active(p)
    ensures p.input == [] ==> Unbuffer(p, frozen, env) == p.(subFrozen := frozen)
  {
  }

  lemma {:induction false} RunCallsFreezes(p: Proxy, calls: seq<Call>, env: Env)
    requires Active(p)
    ensures var q := RunCalls(p, calls, env);
            && (Holding(p) ==> Holding(q))
            && (AsAsked(p) ==> AsAsked(q))
    decreases |p.input|, 3, |calls|
  {
    hide CallActive, KeptOutput, Holding, AsAsked;
    if calls != [] {
      CallFreezes(p, calls[0], env);
      RunCallsFreezes(CallActive(p, calls[0], env), calls[1..], env);
    }
  }

  // -------------------------------------------------------------------------------------------
  // The request made in a callback
  // -------------------------------------------------------------------------------------------

  lemma {:induction false} RunCallsSplit(p: Proxy, a: seq<Call>, b: seq<Call>, env: Env)
    requires Active(p)
    ensures RunCalls(p, a + b, env) == RunCalls(RunCalls(p, a, env), b, env)
    decreases |a|
  {
    hide CallActive, KeptOutput;
    if a == [] {
      assert a + b == b;
    } else {
      assert (a + b)[0] == a[0] && (a + b)[1..] == a[1..] + b;
      RunCallsSplit(CallActive(p, a[0], env), a[1..], b, env);
    }
  }

  predicate NoRequest(calls: seq<Call>) {
    forall k :: 0 <= k < |calls| ==> !calls[k].SetFrozen?
  }

  /** Writes deliver and freeze nothing. */
  lemma {:induction false} WritesOnly(p: Proxy, calls: seq<Call>, env: Env)
    requires Active(p) && NoRequest(calls)
    ensures RunCalls(p, calls, env) == p.(late := p.late + calls, wire := p.wire + Items(calls))
    decreases |calls|
  {
    hide Unbuffer, Item, KeptOutput;
    if calls == [] {
      assert p.late + calls == p.late && p.wire + [] == p.wire;
    } else {
      var p1 := CallActive(p, calls[0], env);
      WritesOnly(p1, calls[1..], env);
      assert p.late + calls == p1.late + calls[1..];
      assert p.wire + Items(calls) == p1.wire + Items(calls[1..]);
    }
  }

  /** Where the back end stands, in its callback for the next piece, after the first of its calls. */
  function Midway(p: Proxy, calls: seq<Call>, env: Env): (m: Proxy)
    requires Active(p) && p.input != []
    ensures Active(m)
  {
    RunCalls(Given(p, env), calls, env)
  }

  /** A freeze that the back end asks for during a delivery, and does not take back, is honoured if and
      only if input is left at that moment: then delivery ends there; otherwise the loop, which has
      nothing more to do, lets go of the sub-socket. */
  lemma FreezeInCallback(p: Proxy, calls: seq<Call>, others: seq<Call>, env: Env)
    requires Active(p) && Held(p) && p.input != []
    requires env.react(p.turns) == calls + ([SetFrozen(true)] + others) && NoRequest(others)
    ensures var m, q := Midway(p.(freeze := false), calls, env), Unbuffer(p, false, env);
            && (q.subFrozen <==> m.input != [])
            && q.delivered == m.delivered && q.input == m.input
            && q.late == m.late + [SetFrozen(true)] + others
            && q.wire == m.wire + Items(others)
  {
    hide RunCalls, Drain, KeptOutput;
    var p0 := p.(freeze := false);
    var m := Midway(p0, calls, env);
    RunCallsSplit(Given(p0, env), calls, [SetFrozen(true)] + others, env);
    RunCallsSplit(m, [SetFrozen(true)], others, env);
    AskedToFreeze(m, env);
    WritesOnly(CallActive(m, SetFrozen(true), env), others, env);
    DrainOne(p0, env);
    PieceFreezes(p0, env);
    FrozenIffLeft(p, false, env);
    DrainDone(GivePiece(p0, env), env);
  }

  lemma AskedToFreeze(m: Proxy, env: Env)
    requires Active(m)
    ensures var r := CallActive(m, SetFrozen(true), env);
            && r == RunCalls(m, [SetFrozen(true)], env)
            && r.late == m.late + [SetFrozen(true)]
            && r.delivered == m.delivered && r.input == m.input && r.wire == m.wire
            && (r.freeze || r.input == [])
  {
    hide Drain, KeptOutput;
    var m1 := m.(late := m.late + [SetFrozen(true)], wire := m.wire + []);
    assert m.wire + [] == m.wire;
    DrainDone(m1.(freeze := true), env);
    UnbufferEmpty(m1, true, env);
  }

  lemma DrainOne(p: Proxy, env: Env)
    requires Active(p) && !p.freeze && p.input != []
    ensures Drain(p, env) == Drain(GivePiece(p, env), env)
  {
  }

  lemma DrainDone(p: Proxy, env: Env)
    requires Active(p) && (p.freeze || p.input == [])
    ensures Drain(p, env) == p
  {
  }

  /** A piece that freezes nothing leaves the rest of the loop to be done: so the statement above holds
      for the callback of every piece. */
  lemma NextPiece(p: Proxy, env: Env)
    requires Active(p) && p.input != []
    ensures var p1 := GivePiece(p.(freeze := false), env);
            !p1.freeze && p1.input != [] ==> Unbuffer(p, false, env) == Unbuffer(p1, false, env)
  {
    hide GivePiece, KeptOutput, Drain;
    DrainOne(p.(freeze := false), env);
    var p1 := GivePiece(p.(freeze := false), env);
    assert !p1.freeze ==> p1.(freeze := false) == p1;
  }

  /** The case at hand: one byte is buffered, and the back end asks for the freeze on receiving it. */
  lemma LastPieceFreezeLost(p: Proxy, env: Env)
    requires Active(p) && Held(p) && |p.input| == 1 && env.react(p.turns) == [SetFrozen(true)]
    ensures Unbuffer(p, false, env).late == p.late + [SetFrozen(true)]
    ensures !Unbuffer(p, false, env).subFrozen
  {
    assert [] + ([SetFrozen(true)] + []) == [SetFrozen(true)];
    FreezeInCallback(p, [], [], env);
    assert p.late + [SetFrozen(true)] + [] == p.late + [SetFrozen(true)];
  }

  // -------------------------------------------------------------------------------------------
  // Over whole runs
  // -------------------------------------------------------------------------------------------

  /** Before activation `freeze` is what was asked for; after it, input is held back only on request. */
  predicate OnRequest(p: Proxy) {
    if Active(p) then AsAsked(p) && (p.input != [] ==> p.freeze)
    else p.late == [] && p.freeze == LastFreeze(p.early)
  }

  lemma ActivateOnRequest(p: Proxy, env: Env)
    requires !Active(p) && OnRequest(p)
    ensures OnRequest(Activate(p, env))
  {
    hide RunCalls, Unbuffer, KeptOutput, LastFreeze, LastUrgent;
    var p1 := Opened(p);
    assert p.early + [] == p.early;
    RunCallsFreezes(p1.(turns := p1.turns + 1), env.react(p1.turns), env);
    var p2 := Notified(p1, |p.urgent| + |p.output|, env);
    assert AsAsked(p2);
    if !p2.freeze {
      FrozenIffLeft(p2, false, env);
      UnbufferEmpty(p2, false, env);
      assert p2.(freeze := false) == p2;
    }
  }

  lemma NegotiateOnRequest(p: Proxy, env: Env)
    requires !Active(p) && OnRequest(p)
    ensures OnRequest(NegotiateReceive(p, env))
  {
    hide Activate, LastFreeze, NegotiateReceive;
    NegotiationReaches(p, env);
    var q := NegotiateReceive(p, env);
    if !Progress(p, q) {
      var mid :| Progress(p, mid) && q == Activate(mid, env);
      ActivateOnRequest(mid, env);
    }
  }

  lemma CallOnRequest(p: Proxy, call: Call, env: Env)
    requires Active(p) && OnRequest(p)
    ensures OnRequest(CallActive(p, call, env))
  {
    hide Unbuffer, KeptOutput, LastFreeze;
    CallFreezes(p, call, env);
    if call.SetFrozen? {
      var p1 := p.(late := p.late + [call], wire := p.wire + Item(call));
      FrozenIffLeft(p1, call.frozen, env);
      UnbufferEmpty(p1, call.frozen, env);
    }
  }

  lemma {:induction false} ReactOnRequest(p: Proxy, calls: seq<Call>, env: Env)
    requires Active(p) && OnRequest(p)
    ensures OnRequest(RunCalls(p, calls, env))
    decreases |calls|
  {
    hide CallActive, KeptOutput, OnRequest;
    if calls != [] {
      CallOnRequest(p, calls[0], env);
      ReactOnRequest(CallActive(p, calls[0], env), calls[1..], env);
    }
  }

  lemma ApplyOnRequest(p: Proxy, e: Event, env: Env)
    requires OnRequest(p) && Enabled(p, e)
    ensures OnRequest(Apply(p, e, env))
  {
    hide RunCalls, NegotiateReceive, Activate, Open, CallActive, LastFreeze;
    match e
    case Received(data) =>
      if Active(p) {
        ReactOnRequest(p.(delivered := p.delivered + data, turns := p.turns + 1), env.react(p.turns), env);
      } else {
        NegotiateOnRequest(p.(input := p.input + data), env);
      }
    case Called(call) =>
      if Active(p) {
        CallOnRequest(p, call, env);
      } else {
        LeftAfter(p.early, call);
      }
    case SentMore =>
      if Active(p) {
        ReactOnRequest(p.(turns := p.turns + 1), env.react(p.turns), env);
      } else if p.state == NEW {
        OpenProgress(p);
      }
  }

  lemma {:induction false} RunOnRequest(p: Proxy, events: seq<Event>, env: Env)
    requires OnRequest(p) && Allowed(p, events, env)
    ensures OnRequest(Run(p, events, env))
    decreases |events|
  {
    hide OnRequest, Apply;
    if events != [] {
      ApplyOnRequest(p, events[0], env);
      RunOnRequest(Apply(p, events[0], env), events[1..], env);
    }
  }

  /** Over every run, whatever the back end does in its callbacks: input stays undelivered on an active
      socket only while the last thing the back end asked for, in all its calls, is to be frozen. */
  lemma HeldOnlyOnRequest(cfg: ProxyConfig, events: seq<Event>, env: Env)
    requires Allowed(Connect(cfg), events, env)
    ensures var p := Run(Connect(cfg), events, env);
            Active(p) && p.input != [] ==> p.freeze && p.subFrozen && LastFreeze(p.early + p.late)
  {
    ConnectOnRequest(cfg);
    hide Run, Allowed, Connect, LastFreeze, Mark, Items, UrgentLeft, PlainLeft;
    RunOnRequest(Connect(cfg), events, env);
    EveryRun(cfg, events, env);
  }

  lemma ConnectOnRequest(cfg: ProxyConfig)
    ensures OnRequest(Connect(cfg))
  {
    hide Request4, Greeting5, Mark;
    ConnectSound(cfg);
    OpenProgress(Blank(cfg));
  }
}
