/**
 * Everything the back end gets from a line being edited, in order (LDISC.C:138-271): bytes of text, line
 * ends and special codes.
 *
 * A story is the history of the typed bytes with marks between them. The theorem says that the traffic of
 * any run of keys is its story told: the bytes that were sent and the marks, each in its place.
 */
module LineTraffic {
  import opened Bytes
  import opened LineDiscipline

  // -------------------------------------------------------------------------------------------
  // Traffic and stories
  // -------------------------------------------------------------------------------------------

  /** One thing the back end gets: a byte of text, or a call that is not text. */
  datatype Heard = Text(b: byte) | Called(t: Traffic)

  function Texts(data: bytes): (s: seq<Heard>)
    ensures |s| == |data| && forall k :: 0 <= k < |s| ==> s[k] == Text(data[k])
  {
    seq(|data|, k requires 0 <= k < |data| => Text(data[k]))
  }

  function Signals(t: Traffic): seq<Heard> {
    if t.SendText? then Texts(t.data) else [Called(t)]
  }

  /** All of the traffic, one after the other. */
  function Flat(traffic: seq<Traffic>): seq<Heard> {
    if traffic == [] then [] else Flat(traffic[..|traffic| - 1]) + Signals(traffic[|traffic| - 1])
  }

  /** Something that happened when `after` bytes had been typed. */
  datatype Mark = Mark(after: nat, what: Traffic)

  /** The typed bytes that were sent, and the marks, in order. */
  function Tell(h: seq<Typed>, marks: seq<Mark>): seq<Heard>
    decreases |h| + |marks|
  {
    if marks != [] && marks[|marks| - 1].after >= |h| then
      Tell(h, marks[..|marks| - 1]) + [Called(marks[|marks| - 1].what)]
    else if h == [] then []
    else Tell(h[..|h| - 1], marks) + if h[|h| - 1].fate.Sent? then [Text(h[|h| - 1].b)] else []
  }

  // -------------------------------------------------------------------------------------------
  // What keys mean for the back end
  // -------------------------------------------------------------------------------------------

  /** How a line ends: CR LF on a raw connection; on a Telnet connection that wants it, the Telnet code for the
      end of a line; CR otherwise. */
  function EndOfLineMark(cfg: Config): Traffic {
    match cfg.protocol
    case Raw => SendEnd([13, 10])
    case Telnet => if cfg.telnetNewline then Special(EndOfLine) else SendEnd([13])
    case Other => SendEnd([13])
  }

  /** What a key makes the back end get besides text, when `text` is in the buffer. */
  function KeyMarks(cfg: Config, text: bytes, quoted: bool, c: Key): seq<Traffic> {
    if quoted then []
    else if c == 21 then [Special(EraseLine)]  // ^U
    else if c == 3 then [Special(EraseLine)] + IfTelnet(cfg, Interrupt)   // ^C
    else if c == 26 then [Special(EraseLine)] + IfTelnet(cfg, Suspend)   // ^Z
    else if c == 28 then [Special(EraseLine)] + IfTelnet(cfg, Abort)   // ^\
    else if c == 4 then (if text == [] then [Special(EndOfFile)] else [])                   // ^D
    else if c == 256 + 13 then [EndOfLineMark(cfg)]  // Return
    else if c == 10 && cfg.protocol.Raw? && text != [] && text[|text| - 1] == 13 then  // ^J after a literal ^M
      [EndOfLineMark(cfg)]
    else []
  }

  function IfTelnet(cfg: Config, code: Code): seq<Traffic> {
    if cfg.telnetKeyboard then [Special(code)] else []
  }

  function MarksAt(after: nat, what: seq<Traffic>): (m: seq<Mark>)
    ensures |m| == |what| && forall k :: 0 <= k < |m| ==> m[k] == Mark(after, what[k])
  {
    seq(|what|, k requires 0 <= k < |what| => Mark(after, what[k]))
  }

  /** The marks of a run of keys. */
  function Marked(cfg: Config, e: Editor, keys: seq<Key>): seq<Mark> {
    if keys == [] then []
    else
      var n := |keys| - 1;
      var before := Judged(cfg, e, keys[..n]);
      Marked(cfg, e, keys[..n])
      + MarksAt(|before|, KeyMarks(cfg, Pick(before, Buffered), Steps(cfg, e, keys[..n]).quotenext, keys[n]))
  }

  // -------------------------------------------------------------------------------------------
  // Telling a story
  // -------------------------------------------------------------------------------------------

  /** Every mark is behind bytes whose fate is decided. */
  predicate Settled(h: seq<Typed>, marks: seq<Mark>) {
    && (forall i :: 0 <= i < |marks| ==> marks[i].after <= |h|)
    && (forall i, j :: 0 <= i < j < |marks| ==> marks[i].after <= marks[j].after)
    && (forall i, k :: 0 <= i < |marks| && 0 <= k < marks[i].after ==> !h[k].fate.Buffered?)
  }

  lemma FlatSnoc(traffic: seq<Traffic>, t: Traffic)
    ensures Flat(traffic + [t]) == Flat(traffic) + Signals(t)
  {
    assert (traffic + [t])[..|traffic|] == traffic;
  }

  lemma TellMark(h: seq<Typed>, marks: seq<Mark>, what: Traffic)
    ensures Tell(h, marks + [Mark(|h|, what)]) == Tell(h, marks) + [Called(what)]
  {
    var m := marks + [Mark(|h|, what)];
    assert m[..|m| - 1] == marks;
  }

  lemma TellTyped(h: seq<Typed>, marks: seq<Mark>, t: Typed)
    requires Settled(h, marks) && !t.fate.Sent?
    ensures Tell(h + [t], marks) == Tell(h, marks)
  {
    assert (h + [t])[..|h|] == h;
    assert Tell(h, marks) + [] == Tell(h, marks);
  }

  /** Only what was sent is told. */
  lemma {:induction false} TellSame(h: seq<Typed>, g: seq<Typed>, marks: seq<Mark>)
    requires |h| == |g|
    requires forall k :: 0 <= k < |h| ==> h[k].b == g[k].b && (h[k].fate.Sent? <==> g[k].fate.Sent?)
    ensures Tell(h, marks) == Tell(g, marks)
    decreases |h| + |marks|
  {
    if marks != [] && marks[|marks| - 1].after >= |h| {
      TellSame(h, g, marks[..|marks| - 1]);
    } else if h != [] {
      TellSame(h[..|h| - 1], g[..|g| - 1], marks);
    }
  }

  lemma {:induction false} TellErased(h: seq<Typed>, n: nat, marks: seq<Mark>)
    ensures Tell(EraseSome(h, n), marks) == Tell(h, marks)
    ensures Settled(h, marks) ==> Settled(EraseSome(h, n), marks)
    decreases n
  {
    hide EraseLast;
    if n > 0 {
      OnlyFewerBuffered(h);
      TellSame(h, EraseLast(h), marks);
      TellErased(EraseLast(h), n - 1, marks);
    }
  }

  lemma TextsJoin(a: bytes, b: bytes)
    ensures Texts(a + b) == Texts(a) + Texts(b)
  {
  }

  lemma {:induction false} TellLast(g: seq<Typed>, t: Typed, marks: seq<Mark>)
    requires marks != [] ==> marks[|marks| - 1].after <= |g|
    ensures Tell(g + [t], marks) == Tell(g, marks) + if t.fate.Sent? then [Text(t.b)] else []
  {
    assert (g + [t])[..|g|] == g;
  }

  lemma TextsOne(b: byte)
    ensures Texts([]) == [] && Texts([b]) == [Text(b)]
  {
  }

  lemma OrderBefore(g: seq<Typed>, t: Typed)
    requires InOrder(g + [t])
    ensures InOrder(g)
    ensures t.fate.Sent? ==> Pick(g, Buffered) == []
  {
    assert forall k :: 0 <= k < |g| ==> (g + [t])[k] == g[k];
    if t.fate.Sent? {
      assert (g + [t])[|g|] == t;
      NoneBuffered(g);
    }
  }

  /** Sending adds what was buffered, all of it after the last mark. */
  lemma {:induction false} TellSent(h: seq<Typed>, marks: seq<Mark>)
    requires Settled(h, marks) && InOrder(h)
    ensures Tell(SendAll(h), marks) == Tell(h, marks) + Texts(Pick(h, Buffered))
    decreases |h|
  {
    if marks != [] && marks[|marks| - 1].after >= |h| {
      NoneBuffered(h);
      SendNone(h);
      assert Texts([]) == [] && Tell(h, marks) + [] == Tell(h, marks);
    } else if h != [] {
      var n := |h| - 1;
      var g, t := h[..n], h[n];
      assert h == g + [t];
      SettledShorter(h, marks);
      hide Tell, Pick, SendAll, InOrder, Settled, Texts;
      OrderBefore(g, t);
      TellSent(g, marks);
      PickSnoc(g, t, Buffered);
      SendAllIs(h);
      TellLast(g, t, marks);
      TellLast(SendAll(g), if t.fate.Buffered? then t.(fate := Sent) else t, marks);
      assert SendAll(h) == SendAll(g) + [if t.fate.Buffered? then t.(fate := Sent) else t];
      TextsJoin(Pick(g, Buffered), [t.b]);
      TextsOne(t.b);
      Rearrange(Tell(g, marks), Texts(Pick(g, Buffered)), Text(t.b));
    } else {
      assert Texts([]) == [];
    }
  }

  lemma Rearrange(a: seq<Heard>, b: seq<Heard>, x: Heard)
    ensures a + b + [x] == a + (b + [x]) && a + b + [] == a + b && a + [] == a
    ensures b == [] ==> a + b + [x] == a + [x] + b
  {
  }

  lemma SendAllIs(h: seq<Typed>)
    requires h != []
    ensures var n := |h| - 1;
      var s := SendAll(h);
      |s| == |h| && s[..n] == SendAll(h[..n]) && s[n] == if h[n].fate.Buffered? then h[n].(fate := Sent) else h[n]
  {
  }

  lemma {:induction false} SendNone(h: seq<Typed>)
    requires forall k :: 0 <= k < |h| ==> !h[k].fate.Buffered?
    ensures SendAll(h) == h
    decreases |h|
  {
    if h != [] {
      SendNone(h[..|h| - 1]);
      assert h == h[..|h| - 1] + [h[|h| - 1]];
    }
  }

  /** A story without its last byte, if no mark is behind that. */
  lemma SettledShorter(h: seq<Typed>, marks: seq<Mark>)
    requires Settled(h, marks) && h != [] && forall i :: 0 <= i < |marks| ==> marks[i].after < |h|
    ensures Settled(h[..|h| - 1], marks)
  {
  }

  // -------------------------------------------------------------------------------------------
  // Every key
  // -------------------------------------------------------------------------------------------

  /** The editor's traffic is its story. */
  ghost predicate Told(e: Editor, h: seq<Typed>, marks: seq<Mark>) {
    Accounts(e, h) && Settled(h, marks) && Flat(e.traffic) == Tell(h, marks)
  }

  lemma {:induction false} NoneLeft(h: seq<Typed>)
    requires Pick(h, Buffered) == []
    ensures forall k :: 0 <= k < |h| ==> !h[k].fate.Buffered?
    decreases |h|
  {
    if h != [] {
      NoneLeft(h[..|h| - 1]);
    }
  }

  lemma BufferIs(e: Editor, h: seq<Typed>, marks: seq<Mark>)
    requires Told(e, h, marks)
    ensures e.buf == Pick(h, Buffered)
  {
    hide Tell, Flat, Pick, Settled;
  }

  lemma InsertTold(cfg: Config, e: Editor, h: seq<Typed>, marks: seq<Mark>, b: byte)
    requires Told(e, h, marks)
    ensures Told(Insert(cfg, e, b), h + [Typed(b, Buffered)], marks)
  {
    hide Tell, Flat, Pick, Type;
    InsertAccounts(cfg, e, h, b);
    TellTyped(h, marks, Typed(b, Buffered));
  }

  lemma EraseTold(cfg: Config, e: Editor, h: seq<Typed>, marks: seq<Mark>, n: nat)
    requires Told(e, h, marks) && n <= |e.buf|
    ensures Told(EraseTo(cfg, e, |e.buf| - n), EraseSome(h, n), marks)
  {
    EraseAccounts(cfg, e, h, n);
    TellErased(h, n, marks);
    hide Tell, Flat, EraseSome, Settled, Accounts;
  }

  lemma SendTold(e: Editor, h: seq<Typed>, marks: seq<Mark>)
    requires Told(e, h, marks)
    ensures Told(SendBuffer(e), SendAll(h), marks)
  {
    hide Tell, Flat, SendAll, Pick, Settled;
    SendAccounts(e, h);
    TellSent(h, marks);
    SettledSent(h, marks);
    FlatSnoc(e.traffic, SendText(e.buf));
    TextsOne(0);
    hide Accounts;
    assert Tell(h, marks) + [] == Tell(h, marks);
  }

  lemma SettledSent(h: seq<Typed>, marks: seq<Mark>)
    requires Settled(h, marks)
    ensures Settled(SendAll(h), marks)
  {
    NothingBuffered(h);
    hide SendAll;
  }

  lemma SentEmpty(e: Editor)
    ensures SendBuffer(e).buf == []
  {
  }

  lemma CallTold(e: Editor, h: seq<Typed>, marks: seq<Mark>, t: Traffic)
    requires Told(e, h, marks) && !t.SendText? && e.buf == []
    ensures Told(Call(e, t), h, marks + [Mark(|h|, t)])
  {
    SettledMark(e, h, marks, t);
    CallAccounts(e, h, t);
    FlatSnoc(e.traffic, t);
    TellMark(h, marks, t);
    hide Tell, Flat, Accounts, Settled;
  }

  lemma SettledMark(e: Editor, h: seq<Typed>, marks: seq<Mark>, t: Traffic)
    requires Accounts(e, h) && Settled(h, marks) && e.buf == []
    ensures Settled(h, marks + [Mark(|h|, t)])
  {
    NoneLeft(h);
    hide Pick;
  }

  lemma NewlineTold(cfg: Config, e: Editor, h: seq<Typed>, marks: seq<Mark>)
    requires Told(e, h, marks)
    ensures Told(Newline(cfg, e), SendAll(h), marks + [Mark(|h|, EndOfLineMark(cfg))])
  {
    SendTold(e, h, marks);
    SentEmpty(e);
    hide Told, SendBuffer, SendAll;
    CallTold(SendBuffer(e), SendAll(h), marks, EndOfLineMark(cfg));
    ScreenOnly(cfg, Call(SendBuffer(e), EndOfLineMark(cfg)), SendAll(h), marks + [Mark(|h|, EndOfLineMark(cfg))], CRLF);
  }

  lemma ScreenOnly(cfg: Config, e: Editor, h: seq<Typed>, marks: seq<Mark>, text: bytes)
    requires Told(e, h, marks)
    ensures Told(Echo(cfg, e, text), h, marks)
  {
    hide Type;
  }

  lemma QuoteTold(e: Editor, h: seq<Typed>, marks: seq<Mark>)
    requires Told(e, h, marks)
    ensures Told(e.(quotenext := true), h, marks)
  {
  }

  lemma MarksOne(after: nat, marks: seq<Mark>, a: Traffic, b: Traffic)
    ensures marks + MarksAt(after, []) == marks
    ensures marks + MarksAt(after, [a]) == marks + [Mark(after, a)]
    ensures marks + MarksAt(after, [a, b]) == marks + [Mark(after, a)] + [Mark(after, b)]
    ensures [a] + [b] == [a, b] && [a] + [] == [a]
  {
  }

  lemma EraseMarkTold(cfg: Config, e: Editor, h: seq<Typed>, marks: seq<Mark>)
    requires Told(e, h, marks)
    ensures Told(Call(EraseTo(cfg, e, 0), Special(EraseLine)), EraseSome(h, |e.buf|),
                 marks + [Mark(|h|, Special(EraseLine))])
  {
    hide Told, EraseTo, EraseSome;
    EraseTold(cfg, e, h, marks, |e.buf|);
    ErasedAll(cfg, e);
    CallTold(EraseTo(cfg, e, 0), EraseSome(h, |e.buf|), marks, Special(EraseLine));
  }

  lemma EraseLineSteps(cfg: Config, e: Editor, h: seq<Typed>, c: Key)
    requires !e.quotenext && c in {21, 3, 26, 28} && e.buf == Pick(h, Buffered)
    ensures var erased := Call(EraseTo(cfg, e, 0), Special(EraseLine));
            Step(cfg, e, c) == if cfg.telnetKeyboard then Signal(erased, c) else Insert(cfg, erased, c % 256)
    ensures Judge(cfg, h, false, c)
            == EraseSome(h, |e.buf|) + if cfg.telnetKeyboard then [] else [Typed(c % 256, Buffered)]
  {
    hide EraseTo, EraseSome, Pick, Insert, Signal;
  }

  /** ^U, and ^C, ^Z and ^\, which say more than ^U. */
  lemma EraseLineTold(cfg: Config, e: Editor, h: seq<Typed>, marks: seq<Mark>, c: Key)
    requires Told(e, h, marks) && !e.quotenext && c in {21, 3, 26, 28}
    ensures Told(Step(cfg, e, c), Judge(cfg, h, false, c), marks + MarksAt(|h|, KeyMarks(cfg, e.buf, false, c)))
  {
    hide Told, EraseTo, EraseSome, Pick, Insert, Step, Judge;
    BufferIs(e, h, marks);
    EraseLineSteps(cfg, e, h, c);
    var g, erased := EraseSome(h, |e.buf|), Call(EraseTo(cfg, e, 0), Special(EraseLine));
    var m := marks + [Mark(|h|, Special(EraseLine))];
    EraseMarkTold(cfg, e, h, marks);
    ErasedAll(cfg, e);
    var code := if c == 3 then Interrupt else if c == 26 then Suspend else Abort;
    MarksOne(|h|, marks, Special(EraseLine), Special(code));
    if !cfg.telnetKeyboard {
      InsertTold(cfg, erased, g, m, c % 256);
    } else {
      assert g + [] == g;
      CallTold(erased, g, m, Special(code));
    }
  }

  lemma ErasedAll(cfg: Config, e: Editor)
    ensures EraseTo(cfg, e, 0).buf == []
  {
  }

  lemma EndOfFileTold(cfg: Config, e: Editor, h: seq<Typed>, marks: seq<Mark>)
    requires Told(e, h, marks) && !e.quotenext
    ensures Told(Step(cfg, e, CTRL_D), SendAll(h), marks + MarksAt(|h|, KeyMarks(cfg, e.buf, false, CTRL_D)))
  {
    hide Told, SendAll;
    SendTold(e, h, marks);
    MarksOne(|h|, marks, Special(EndOfFile), Special(EndOfFile));
    if e.buf == [] {
      CallTold(SendBuffer(e), SendAll(h), marks, Special(EndOfFile));
    }
  }

  lemma RawReturnTold(cfg: Config, e: Editor, h: seq<Typed>, marks: seq<Mark>)
    requires Told(e, h, marks) && e.buf != []
    ensures Told(Newline(cfg, EraseTo(cfg, e, |e.buf| - 1)), SendAll(EraseLast(h)),
                 marks + [Mark(|h|, EndOfLineMark(cfg))])
  {
    hide Told, EraseTo, EraseLast, EraseSome, SendAll, Newline;
    EraseOne(h);
    EraseTold(cfg, e, h, marks, 1);
    NewlineTold(cfg, EraseTo(cfg, e, |e.buf| - 1), EraseLast(h), marks);
  }

  predicate EndsLine(cfg: Config, text: bytes, c: Key) {
    c == KEY_RETURN || (c == CTRL_J && cfg.protocol.Raw? && text != [] && text[|text| - 1] == CR)
  }

  lemma ReturnSteps(cfg: Config, e: Editor, h: seq<Typed>, c: Key)
    requires e.buf == Pick(h, Buffered) && !e.quotenext && EndsLine(cfg, e.buf, c)
    ensures KeyMarks(cfg, e.buf, false, c) == [EndOfLineMark(cfg)]
    ensures c == KEY_RETURN ==> Step(cfg, e, c) == Newline(cfg, e) && Judge(cfg, h, false, c) == SendAll(h)
    ensures c != KEY_RETURN ==>
              && e.buf != [] && Step(cfg, e, c) == Newline(cfg, EraseTo(cfg, e, |e.buf| - 1))
              && Judge(cfg, h, false, c) == SendAll(EraseLast(h))
  {
    hide Pick, EraseTo, EraseSome, EraseLast, Insert, Echo, WordStart, Newline, SendBuffer, SendAll, Signal, Looks;
  }

  lemma ReturnTold(cfg: Config, e: Editor, h: seq<Typed>, marks: seq<Mark>, c: Key)
    requires Told(e, h, marks) && !e.quotenext && EndsLine(cfg, e.buf, c)
    ensures Told(Step(cfg, e, c), Judge(cfg, h, false, c), marks + MarksAt(|h|, KeyMarks(cfg, e.buf, false, c)))
  {
    hide Told;
    BufferIs(e, h, marks);
    ReturnSteps(cfg, e, h, c);
    MarksOne(|h|, marks, EndOfLineMark(cfg), EndOfLineMark(cfg));
    hide Told, Pick, EraseTo, EraseLast, Newline, SendAll, Step, Judge, KeyMarks, EndOfLineMark, MarksAt, EndsLine;
    if c == KEY_RETURN {
      NewlineTold(cfg, e, h, marks);
    } else {
      RawReturnTold(cfg, e, h, marks);
    }
  }

  predicate Says(cfg: Config, e: Editor, c: Key) {
    !e.quotenext && (c in {21, 3, 26, 28} || c == CTRL_D || EndsLine(cfg, e.buf, c))
  }

  lemma SaysNothing(cfg: Config, e: Editor, c: Key)
    requires !Says(cfg, e, c)
    ensures KeyMarks(cfg, e.buf, e.quotenext, c) == []
  {
  }

  /** The other keys do not reach the back end. */
  lemma SilentTold(cfg: Config, e: Editor, h: seq<Typed>, marks: seq<Mark>, c: Key)
    requires Told(e, h, marks) && !Says(cfg, e, c)
    ensures Told(Step(cfg, e, c), Judge(cfg, h, e.quotenext, c), marks)
  {
    hide Told;
    BufferIs(e, h, marks);
    EraseOne(h);
    NothingToErase(h);
    hide Pick, EraseTo, EraseSome, EraseLast, Insert, Echo, WordStart, Newline, SendBuffer, SendAll, Signal, Looks;
    if e.quotenext {
      InsertTold(cfg, e, h, marks, c % 256);
    } else if c == KEY_BACKSPACE || c == KEY_DELETE {
      if e.buf != [] { EraseTold(cfg, e, h, marks, 1); }
    } else if c == CTRL_W {
      if e.buf != [] { EraseTold(cfg, e, h, marks, |e.buf| - WordStart(e.buf, |e.buf| - 1)); }
    } else if c == CTRL_R {
      ScreenOnly(cfg, e, h, marks, REDRAW + Looks(e.buf, cfg.utf));
    } else if c == CTRL_V {
      QuoteTold(e, h, marks);
    } else {
      InsertTold(cfg, e, h, marks, c % 256);
    }
  }

  /** Every key adds to the traffic what it adds to the story. */
  lemma StepTold(cfg: Config, e: Editor, h: seq<Typed>, marks: seq<Mark>, c: Key)
    requires Told(e, h, marks)
    ensures Told(Step(cfg, e, c), Judge(cfg, h, e.quotenext, c),
                 marks + MarksAt(|h|, KeyMarks(cfg, e.buf, e.quotenext, c)))
  {
    hide Told, Step, KeyMarks, MarksAt;
    if !Says(cfg, e, c) {
      SaysNothing(cfg, e, c);
      MarksOne(|h|, marks, Special(EraseLine), Special(EraseLine));
      SilentTold(cfg, e, h, marks, c);
    } else if EndsLine(cfg, e.buf, c) {
      ReturnTold(cfg, e, h, marks, c);
    } else if c == CTRL_D {
      EndOfFileTold(cfg, e, h, marks);
    } else {
      EraseLineTold(cfg, e, h, marks, c);
    }
  }

  lemma NothingYet(e: Editor)
    requires Fresh(e)
    ensures Told(e, [], [])
  {
  }

  lemma {:induction false} RunTold(cfg: Config, e: Editor, keys: seq<Key>)
    requires Fresh(e)
    ensures Told(Steps(cfg, e, keys), Judged(cfg, e, keys), Marked(cfg, e, keys))
    decreases |keys|
  {
    NothingYet(e);
    if keys != [] {
      var n := |keys| - 1;
      var f, h := Steps(cfg, e, keys[..n]), Judged(cfg, e, keys[..n]);
      RunTold(cfg, e, keys[..n]);
      hide Told, Step, Judge, KeyMarks, Pick, MarksAt;
      BufferIs(f, h, Marked(cfg, e, keys[..n]));
      StepTold(cfg, f, h, Marked(cfg, e, keys[..n]), keys[n]);
    }
  }

  /** Over every run of keys, all the back end gets is the story of the run: the bytes that were sent, and
      between them, each after the bytes typed before it, the line ends and codes that the keys stand for. */
  lemma EveryRun(cfg: Config, e: Editor, keys: seq<Key>)
    requires Fresh(e)
    ensures Flat(Steps(cfg, e, keys).traffic) == Tell(Judged(cfg, e, keys), Marked(cfg, e, keys))
  {
    hide Steps, Judged, Marked;
    RunTold(cfg, e, keys);
  }
}
