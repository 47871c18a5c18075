/**
 * Local line editing: the editing branch of ldisc_send in LDISC.C, with plen, pwrite and bsb.
 *
 * The editor never looks at the screen, it only counts what it printed. The theorems say that the count is
 * right: after any keys the line on the screen ends with exactly what is in the buffer, and every byte that
 * was ever typed in has been erased, sent once and in order, or is still in the buffer.
 */
module LineDiscipline {
  import opened Bytes

  // -------------------------------------------------------------------------------------------
  // The terminal
  // -------------------------------------------------------------------------------------------

  const BS: byte := 8
  const TAB: byte := 9
  const LF: byte := 10
  const CR: byte := 13
  const SPACE: byte := 32

  /** The cursor's line, as wide as needed, and the cursor's column. */
  datatype Screen = Screen(line: bytes, col: nat)

  function Blanks(n: nat): (b: bytes)
    ensures |b| == n && forall k :: 0 <= k < n ==> b[k] == SPACE
  {
    if n == 0 then [] else [SPACE] + Blanks(n - 1)
  }

  /** One byte arrives at the terminal. */
  function Put(s: Screen, b: byte): Screen {
    if b == BS then s.(col := if s.col == 0 then 0 else s.col - 1)
    else if b == CR then s.(col := 0)
    else if b == LF then s.(line := Blanks(s.col))
    else if s.col < |s.line| then Screen(s.line[s.col := b], s.col + 1)
    else Screen(s.line + Blanks(s.col - |s.line|) + [b], s.col + 1)
  }

  /** c_write. */
  function Type(s: Screen, text: bytes): Screen
    decreases |text|
  {
    if text == [] then s else Type(Put(s, text[0]), text[1..])
  }

  /** Only blanks at and after the cursor. */
  predicate AtEnd(s: Screen) {
    s.col <= |s.line| && forall k :: s.col <= k < |s.line| ==> s.line[k] == SPACE
  }

  /** The text in front of the cursor. */
  function Visible(s: Screen): bytes
    requires AtEnd(s)
  {
    s.line[..s.col]
  }

  predicate Printable(b: byte) {
    b != BS && b != CR && b != LF
  }

  lemma {:induction false} TypePrintable(s: Screen, text: bytes)
    requires AtEnd(s) && forall k :: 0 <= k < |text| ==> Printable(text[k])
    ensures AtEnd(Type(s, text)) && Visible(Type(s, text)) == Visible(s) + text
    decreases |text|
  {
    if text == [] {
    } else {
      var t := Put(s, text[0]);
      assert Visible(t) == Visible(s) + [text[0]];
      TypePrintable(t, text[1..]);
      assert text == [text[0]] + text[1..];
    }
  }

  lemma {:induction false} TypeJoin(s: Screen, a: bytes, b: bytes)
    ensures Type(s, a + b) == Type(Type(s, a), b)
    decreases |a|
  {
    if a == [] {
      assert a + b == b;
    } else {
      assert (a + b)[1..] == a[1..] + b;
      TypeJoin(Put(s, a[0]), a[1..], b);
    }
  }

  const RUBOUT: bytes := [BS, SPACE, BS]

  /** bsb. */
  function Rub(s: Screen, n: nat): Screen
    decreases n
  {
    if n == 0 then s else Rub(Type(s, RUBOUT), n - 1)
  }

  lemma RubOne(s: Screen)
    requires AtEnd(s) && s.col > 0
    ensures AtEnd(Type(s, RUBOUT)) && Visible(Type(s, RUBOUT)) == Visible(s)[..s.col - 1]
  {
    var a := Put(s, BS);
    var b := Put(a, SPACE);
    var c := Put(b, BS);
    assert RUBOUT[1..] == [SPACE, BS] && [SPACE, BS][1..] == [BS] && [BS][1..] == [];
    assert Type(s, RUBOUT) == Type(a, [SPACE, BS]) == Type(b, [BS]) == Type(c, []) == c;
  }

  /** Rubbing out takes that much off the text. */
  lemma {:induction false} RubShortens(s: Screen, n: nat)
    requires AtEnd(s) && n <= s.col
    ensures AtEnd(Rub(s, n)) && Visible(Rub(s, n)) == Visible(s)[..s.col - n]
    decreases n
  {
    if n > 0 {
      RubOne(s);
      RubShortens(Type(s, RUBOUT), n - 1);
    }
  }

  lemma {:induction false} RubJoin(s: Screen, m: nat, n: nat)
    ensures Rub(s, m + n) == Rub(Rub(s, m), n)
    decreases m
  {
    if m > 0 {
      RubJoin(Type(s, RUBOUT), m - 1, n);
    }
  }

  // -------------------------------------------------------------------------------------------
  // How bytes look
  // -------------------------------------------------------------------------------------------

  predicate Plain(c: byte, utf: bool) {
    32 <= c <= 126 || (c >= 160 && !utf)
  }

  /** plen. */
  function Plen(c: byte, utf: bool): nat {
    if Plain(c, utf) then 1 else if c < 128 then 2 else 4
  }

  function Hex(n: byte): (h: byte)
    requires n < 16
    ensures 48 <= h < 71
  {
    if n < 10 then 48 + n else 55 + n
  }

  /** pwrite: the byte itself, ^X, or <XY>. */
  function Look(c: byte, utf: bool): (t: bytes)
    ensures |t| == Plen(c, utf) && forall k :: 0 <= k < |t| ==> Printable(t[k])
  {
    if Plain(c, utf) then [c]
    else if c < 128 then ['^' as int, if c == 127 then '?' as int else c + 64]
    else ['<' as int, Hex(c / 16), Hex(c % 16), '>' as int]
  }

  function HexValue(h: byte): int {
    if 48 <= h < 58 then h as int - 48 else h as int - 55
  }

  /** The byte that a reader takes a piece of text for: ^ and a letter for the control code 64 below the
      letter, ^? for DEL, hexadecimal digits between angle brackets. */
  function LooksLike(t: bytes): int {
    if |t| == 1 then t[0]
    else if |t| == 2 && t[0] == '^' as int then (if t[1] == '?' as int then 127 else t[1] as int - 64)
    else if |t| == 4 && t[0] == '<' as int && t[3] == '>' as int then 16 * HexValue(t[1]) + HexValue(t[2])
    else -1
  }

  /** What is printed for a byte is read as that byte: no two bytes look alike. */
  lemma LookTells(c: byte, utf: bool)
    ensures LooksLike(Look(c, utf)) == c
  {
    var t := Look(c, utf);
    if !Plain(c, utf) && c < 128 {
      assert t[0] == '^' as int && t[1] == if c == 127 then '?' as int else c + 64;
    }
  }

  function Looks(buf: bytes, utf: bool): (t: bytes)
    ensures forall k :: 0 <= k < |t| ==> Printable(t[k])
  {
    if buf == [] then [] else Looks(buf[..|buf| - 1], utf) + Look(buf[|buf| - 1], utf)
  }

  lemma {:induction false} LooksJoin(a: bytes, b: bytes, utf: bool)
    ensures Looks(a + b, utf) == Looks(a, utf) + Looks(b, utf)
    decreases |b|
  {
    if b == [] {
      assert a + b == a;
    } else {
      var n := |b| - 1;
      assert (a + b)[..|a + b| - 1] == a + b[..n];
      LooksJoin(a, b[..n], utf);
    }
  }

  // -------------------------------------------------------------------------------------------
  // What one key does
  // -------------------------------------------------------------------------------------------

  datatype Protocol = Raw | Telnet | Other

  /** What the editor asks of the configuration and the terminal; fixed during a run. */
  datatype Config = Config(echoing: bool, utf: bool, protocol: Protocol, telnetKeyboard: bool, telnetNewline: bool)

  datatype Code = EraseLine | Interrupt | Suspend | Abort | EndOfFile | EndOfLine

  /** Calls of the back end: the edited text, the bytes that end a line, and special codes. */
  datatype Traffic = SendText(data: bytes) | SendEnd(data: bytes) | Special(code: Code)

  datatype Editor = Editor(buf: bytes, quotenext: bool, screen: Screen, traffic: seq<Traffic>)

  /** A key: a byte, plus 256 if it comes from a special string. */
  type Key = c: nat | c < 512

  const KEY := 256
  const CTRL_C: Key := 3
  const CTRL_D: Key := 4
  const CTRL_J: Key := 10
  const CTRL_R: Key := 18
  const CTRL_U: Key := 21
  const CTRL_V: Key := 22
  const CTRL_W: Key := 23
  const CTRL_Z: Key := 26
  const CTRL_BACKSLASH: Key := 28
  const KEY_BACKSPACE: Key := KEY + 8
  const KEY_DELETE: Key := KEY + 127
  const KEY_RETURN: Key := KEY + 13

  predicate IsSpace(b: byte) {
    b == 32 || 9 <= b <= 13
  }

  /** Where erasing a word stops: at the start, or between a space and the word after it. */
  predicate WordBoundary(buf: bytes, n: nat)
    requires n < |buf|
  {
    n == 0 || (IsSpace(buf[n - 1]) && !IsSpace(buf[n]))
  }

  /** The last boundary before the end. */
  function WordStart(buf: bytes, n: nat): (w: nat)
    requires n < |buf|
    ensures w <= n && WordBoundary(buf, w)
    ensures forall k :: w < k <= n ==> !WordBoundary(buf, k)
  {
    if WordBoundary(buf, n) then n else WordStart(buf, n - 1)
  }

  function Echo(cfg: Config, e: Editor, text: bytes): Editor {
    if cfg.echoing then e.(screen := Type(e.screen, text)) else e
  }

  function Call(e: Editor, t: Traffic): Editor {
    e.(traffic := e.traffic + [t])
  }

  /** Erases the buffer back to `n` bytes. */
  function EraseTo(cfg: Config, e: Editor, n: nat): Editor
    requires n <= |e.buf|
  {
    Editor(e.buf[..n], e.quotenext,
           if cfg.echoing then Rub(e.screen, |Looks(e.buf[n..], cfg.utf)|) else e.screen, e.traffic)
  }

  function Insert(cfg: Config, e: Editor, b: byte): Editor {
    Echo(cfg, e.(buf := e.buf + [b], quotenext := false), Look(b, cfg.utf))
  }

  /** Sends what there is of a line. */
  function SendBuffer(e: Editor): Editor {
    if e.buf == [] then e else Call(e, SendText(e.buf)).(buf := [])
  }

  const CRLF: bytes := [CR, LF]

  function LineEnd(cfg: Config): Traffic {
    if cfg.protocol.Raw? then SendEnd(CRLF)
    else if cfg.protocol.Telnet? && cfg.telnetNewline then Special(EndOfLine)
    else SendEnd([CR])
  }

  function Newline(cfg: Config, e: Editor): Editor {
    Echo(cfg, Call(SendBuffer(e), LineEnd(cfg)), CRLF)
  }

  /** ^C, ^\ and ^Z say more than ^U. */
  function Signal(e: Editor, c: Key): Editor {
    if c == CTRL_C then Call(e, Special(Interrupt))
    else if c == CTRL_Z then Call(e, Special(Suspend))
    else if c == CTRL_BACKSLASH then Call(e, Special(Abort))
    else e
  }

  const REDRAW: bytes := ['^' as int, 'R' as int, CR, LF]

  /** One round of the loop in ldisc_send. */
  function Step(cfg: Config, e: Editor, c: Key): Editor {
    if e.quotenext then Insert(cfg, e, c % 256)
    else if c == KEY_BACKSPACE || c == KEY_DELETE then
      if e.buf == [] then e else EraseTo(cfg, e, |e.buf| - 1)
    else if c == CTRL_W then
      if e.buf == [] then e else EraseTo(cfg, e, WordStart(e.buf, |e.buf| - 1))
    else if c == CTRL_U || c == CTRL_C || c == CTRL_BACKSLASH || c == CTRL_Z then
      var erased := Call(EraseTo(cfg, e, 0), Special(EraseLine));
      if cfg.telnetKeyboard then Signal(erased, c) else Insert(cfg, erased, c % 256)
    else if c == CTRL_R then Echo(cfg, e, REDRAW + Looks(e.buf, cfg.utf))
    else if c == CTRL_V then e.(quotenext := true)
    else if c == CTRL_D then
      if e.buf == [] then Call(e, Special(EndOfFile)) else SendBuffer(e)
    else if c == CTRL_J && cfg.protocol.Raw? && e.buf != [] && e.buf[|e.buf| - 1] == CR then
      Newline(cfg, EraseTo(cfg, e, |e.buf| - 1))
    else if c == KEY_RETURN then Newline(cfg, e)
    else Insert(cfg, e, c % 256)
  }

  function Steps(cfg: Config, e: Editor, keys: seq<Key>): Editor {
    if keys == [] then e else Step(cfg, Steps(cfg, e, keys[..|keys| - 1]), keys[|keys| - 1])
  }

  // -------------------------------------------------------------------------------------------
  // Screen and buffer agree
  // -------------------------------------------------------------------------------------------

  /** The line in front of the cursor ends with the look of the buffer. */
  predicate Shows(cfg: Config, e: Editor) {
    var t := Looks(e.buf, cfg.utf);
    && AtEnd(e.screen)
    && |t| <= e.screen.col
    && Visible(e.screen)[e.screen.col - |t|..] == t
  }

  /** What stands before the buffer on the line. */
  function Before(cfg: Config, e: Editor): bytes
    requires Shows(cfg, e)
  {
    Visible(e.screen)[..e.screen.col - |Looks(e.buf, cfg.utf)|]
  }

  lemma ShowsIs(cfg: Config, e: Editor, prefix: bytes)
    requires AtEnd(e.screen) && Visible(e.screen) == prefix + Looks(e.buf, cfg.utf)
    ensures Shows(cfg, e) && Before(cfg, e) == prefix
  {
  }

  lemma EraseShows(cfg: Config, e: Editor, n: nat)
    requires cfg.echoing && Shows(cfg, e) && n <= |e.buf|
    ensures Shows(cfg, EraseTo(cfg, e, n)) && Before(cfg, EraseTo(cfg, e, n)) == Before(cfg, e)
  {
    var f := EraseTo(cfg, e, n);
    var a, b := e.buf[..n], e.buf[n..];
    var m := |Looks(b, cfg.utf)|;
    assert e.buf == a + b;
    LooksJoin(a, b, cfg.utf);
    RubShortens(e.screen, m);
    hide Looks, Rub;
    assert Visible(e.screen) == Before(cfg, e) + Looks(e.buf, cfg.utf);
    assert Visible(f.screen) == Before(cfg, e) + Looks(a, cfg.utf);
    ShowsIs(cfg, f, Before(cfg, e));
  }

  lemma InsertShows(cfg: Config, e: Editor, b: byte)
    requires cfg.echoing && Shows(cfg, e)
    ensures Shows(cfg, Insert(cfg, e, b)) && Before(cfg, Insert(cfg, e, b)) == Before(cfg, e)
  {
    var f := Insert(cfg, e, b);
    TypePrintable(e.screen, Look(b, cfg.utf));
    assert f.buf[..|e.buf|] == e.buf;
    assert Looks(f.buf, cfg.utf) == Looks(e.buf, cfg.utf) + Look(b, cfg.utf);
    hide Looks, Look, Type;
    assert Visible(e.screen) == Before(cfg, e) + Looks(e.buf, cfg.utf);
    ShowsIs(cfg, f, Before(cfg, e));
  }

  lemma NewLine(s: Screen)
    ensures Type(s, CRLF) == Screen([], 0)
  {
    assert CRLF[1..] == [LF] && [LF][1..] == [];
    assert Type(s, CRLF) == Type(Put(s, CR), [LF]) == Put(Put(s, CR), LF);
  }

  lemma RedrawShows(cfg: Config, e: Editor)
    requires cfg.echoing
    ensures var f := Echo(cfg, e, REDRAW + Looks(e.buf, cfg.utf));
      Shows(cfg, f) && Before(cfg, f) == []
  {
    var f := Echo(cfg, e, REDRAW + Looks(e.buf, cfg.utf));
    var t := Type(e.screen, REDRAW[..2]);
    assert REDRAW == REDRAW[..2] + CRLF;
    TypeJoin(e.screen, REDRAW, Looks(e.buf, cfg.utf));
    TypeJoin(e.screen, REDRAW[..2], CRLF);
    NewLine(t);
    TypePrintable(Screen([], 0), Looks(e.buf, cfg.utf));
    ShowsIs(cfg, f, []);
  }

  lemma SendShows(cfg: Config, e: Editor)
    requires Shows(cfg, e)
    ensures Shows(cfg, SendBuffer(e))
  {
  }

  lemma NewlineShows(cfg: Config, e: Editor)
    requires cfg.echoing
    ensures Shows(cfg, Newline(cfg, e))
  {
    NewLine(e.screen);
  }

  /** Keys that start a new line or leave the text behind; the others touch nothing but the text being edited. */
  predicate LeavesText(cfg: Config, e: Editor, c: Key) {
    && !e.quotenext
    && (c == CTRL_R || c == KEY_RETURN || (c == CTRL_D && e.buf != []) ||
        (c == CTRL_J && cfg.protocol.Raw? && e.buf != [] && e.buf[|e.buf| - 1] == CR))
  }

  /** With echo on, every key keeps screen and buffer in agreement, and whatever stands before the text stays. */
  lemma StepShows(cfg: Config, e: Editor, c: Key)
    requires cfg.echoing && Shows(cfg, e)
    ensures Shows(cfg, Step(cfg, e, c))
    ensures !LeavesText(cfg, e, c) ==> Before(cfg, Step(cfg, e, c)) == Before(cfg, e)
  {
    hide Looks, EraseTo, Insert, Newline, SendBuffer, Echo, WordStart, Shows, Signal, Before;
    if e.quotenext {
      InsertShows(cfg, e, c % 256);
    } else if c == KEY_BACKSPACE || c == KEY_DELETE {
      if e.buf != [] { EraseShows(cfg, e, |e.buf| - 1); }
    } else if c == CTRL_W {
      if e.buf != [] { EraseShows(cfg, e, WordStart(e.buf, |e.buf| - 1)); }
    } else if c == CTRL_U || c == CTRL_C || c == CTRL_BACKSLASH || c == CTRL_Z {
      var erased := Call(EraseTo(cfg, e, 0), Special(EraseLine));
      EraseShows(cfg, e, 0);
      SameShows(cfg, EraseTo(cfg, e, 0), erased);
      SignalOnlyCalls(erased, c);
      SameShows(cfg, erased, Signal(erased, c));
      InsertShows(cfg, erased, c % 256);
    } else if c == CTRL_R {
      RedrawShows(cfg, e);
    } else if c == CTRL_V {
      SameShows(cfg, e, e.(quotenext := true));
    } else if c == CTRL_D {
      SameShows(cfg, e, Call(e, Special(EndOfFile)));
      SendShows(cfg, e);
    } else if c == CTRL_J && cfg.protocol.Raw? && e.buf != [] && e.buf[|e.buf| - 1] == CR {
      NewlineShows(cfg, EraseTo(cfg, e, |e.buf| - 1));
    } else if c == KEY_RETURN {
      NewlineShows(cfg, e);
    } else {
      InsertShows(cfg, e, c % 256);
    }
  }

  lemma SameShows(cfg: Config, e: Editor, f: Editor)
    requires Shows(cfg, e) && f.buf == e.buf && f.screen == e.screen
    ensures Shows(cfg, f) && Before(cfg, f) == Before(cfg, e)
  {
  }

  lemma SignalOnlyCalls(e: Editor, c: Key)
    ensures Signal(e, c).buf == e.buf && Signal(e, c).screen == e.screen && Signal(e, c).quotenext == e.quotenext
  {
  }

  /** Without echo the screen is left alone. */
  lemma StepSilent(cfg: Config, e: Editor, c: Key)
    requires !cfg.echoing
    ensures Step(cfg, e, c).screen == e.screen
  {
    hide Looks, WordStart;
  }

  // -------------------------------------------------------------------------------------------
  // The fate of every byte
  // -------------------------------------------------------------------------------------------

  datatype Fate = Buffered | Sent | Erased

  /** A byte that was put into the buffer, and what has become of it. */
  datatype Typed = Typed(b: byte, fate: Fate)

  function Pick(h: seq<Typed>, fate: Fate): bytes {
    if h == [] then []
    else
      var n := |h| - 1;
      Pick(h[..n], fate) + if h[n].fate == fate then [h[n].b] else []
  }

  /** The last byte still in the buffer is erased. */
  function EraseLast(h: seq<Typed>): (r: seq<Typed>)
    ensures |r| == |h| && forall k :: 0 <= k < |h| ==> r[k].b == h[k].b
  {
    if h == [] then []
    else
      var n := |h| - 1;
      if h[n].fate.Buffered? then h[..n] + [h[n].(fate := Erased)] else EraseLast(h[..n]) + [h[n]]
  }

  function EraseSome(h: seq<Typed>, n: nat): (r: seq<Typed>)
    ensures |r| == |h| && forall k :: 0 <= k < |h| ==> r[k].b == h[k].b
    decreases n
  {
    if n == 0 then h else EraseSome(EraseLast(h), n - 1)
  }

  function SendAll(h: seq<Typed>): (r: seq<Typed>)
    ensures |r| == |h| && forall k :: 0 <= k < |h| ==> r[k].b == h[k].b
  {
    if h == [] then []
    else
      var n := |h| - 1;
      SendAll(h[..n]) + [if h[n].fate.Buffered? then h[n].(fate := Sent) else h[n]]
  }

  /** The meaning of a key for the bytes typed so far; `quoted` says that ^V came before. */
  function Judge(cfg: Config, h: seq<Typed>, quoted: bool, c: Key): seq<Typed> {
    var text := Pick(h, Buffered);
    var typed := [Typed(c % 256, Buffered)];
    if quoted then h + typed
    else if c == KEY_BACKSPACE || c == KEY_DELETE then EraseLast(h)
    else if c == CTRL_W then if text == [] then h else EraseSome(h, |text| - WordStart(text, |text| - 1))
    else if c == CTRL_U || c == CTRL_C || c == CTRL_BACKSLASH || c == CTRL_Z then
      EraseSome(h, |text|) + if cfg.telnetKeyboard then [] else typed
    else if c == CTRL_R || c == CTRL_V then h
    else if c == CTRL_D || c == KEY_RETURN then SendAll(h)
    else if c == CTRL_J && cfg.protocol.Raw? && text != [] && text[|text| - 1] == CR then SendAll(EraseLast(h))
    else h + typed
  }

  /** All text sent, line after line. */
  function SentText(traffic: seq<Traffic>): bytes {
    if traffic == [] then []
    else
      var n := |traffic| - 1;
      SentText(traffic[..n]) + if traffic[n].SendText? then traffic[n].data else []
  }

  lemma SentSnoc(traffic: seq<Traffic>, t: Traffic)
    ensures SentText(traffic + [t]) == SentText(traffic) + if t.SendText? then t.data else []
  {
    assert (traffic + [t])[..|traffic|] == traffic;
  }

  /** Nothing is sent ahead of what is still in the buffer. */
  ghost predicate InOrder(h: seq<Typed>) {
    forall i, j :: 0 <= i < j < |h| && h[i].fate.Buffered? ==> !h[j].fate.Sent?
  }

  /** The editor accounts for the history: its buffer is what is still buffered, and what it sent is what was sent. */
  ghost predicate Accounts(e: Editor, h: seq<Typed>) {
    e.buf == Pick(h, Buffered) && SentText(e.traffic) == Pick(h, Sent) && InOrder(h)
  }

  lemma PickSnoc(h: seq<Typed>, t: Typed, fate: Fate)
    ensures Pick(h + [t], fate) == Pick(h, fate) + if t.fate == fate then [t.b] else []
  {
    assert (h + [t])[..|h|] == h;
  }

  lemma DropLast(text: bytes, b: byte, h: bytes)
    ensures (h + [b])[..|h + [b]| - 1] == h
    ensures text != [] ==> (h + text)[..|h + text| - 1] == h + text[..|text| - 1]
  {
  }

  lemma {:induction false} EraseLastPicks(h: seq<Typed>)
    ensures var text := Pick(h, Buffered);
      Pick(EraseLast(h), Buffered) == if text == [] then [] else text[..|text| - 1]
    ensures Pick(EraseLast(h), Sent) == Pick(h, Sent)
    decreases |h|
  {
    if h != [] {
      var n := |h| - 1;
      var g, t := h[..n], h[n];
      var text := Pick(g, Buffered);
      EraseLastPicks(g);
      PickSnoc(g, t, Buffered);
      PickSnoc(g, t, Sent);
      EraseLastIs(g, t);
      hide Pick, EraseLast;
      assert h == g + [t];
      if t.fate.Buffered? {
        PickSnoc(g, t.(fate := Erased), Buffered);
        PickSnoc(g, t.(fate := Erased), Sent);
        DropLast([], t.b, text);
      } else {
        PickSnoc(EraseLast(g), t, Buffered);
        PickSnoc(EraseLast(g), t, Sent);
        assert text + [] == text;
      }
    }
  }

  lemma EraseLastIs(g: seq<Typed>, t: Typed)
    ensures EraseLast(g + [t]) == if t.fate.Buffered? then g + [t.(fate := Erased)] else EraseLast(g) + [t]
  {
    assert (g + [t])[..|g|] == g;
  }

  lemma EraseLastOrder(h: seq<Typed>)
    requires InOrder(h)
    ensures InOrder(EraseLast(h))
  {
    OnlyFewerBuffered(h);
    hide EraseLast;
  }

  lemma {:induction false} OnlyFewerBuffered(h: seq<Typed>)
    ensures forall k :: 0 <= k < |h| ==>
            EraseLast(h)[k] == h[k] || (h[k].fate.Buffered? && EraseLast(h)[k].fate.Erased?)
    decreases |h|
  {
    if h != [] {
      OnlyFewerBuffered(h[..|h| - 1]);
    }
  }

  lemma {:induction false} EraseSomePicks(h: seq<Typed>, n: nat)
    requires n <= |Pick(h, Buffered)| && InOrder(h)
    ensures Pick(EraseSome(h, n), Buffered) == Pick(h, Buffered)[..|Pick(h, Buffered)| - n]
    ensures Pick(EraseSome(h, n), Sent) == Pick(h, Sent) && InOrder(EraseSome(h, n))
    decreases n
  {
    var text := Pick(h, Buffered);
    if n == 0 {
      assert text[..|text|] == text;
    } else {
      EraseLastPicks(h);
      EraseLastOrder(h);
      EraseSomePicks(EraseLast(h), n - 1);
      assert EraseSome(h, n) == EraseSome(EraseLast(h), n - 1);
      hide Pick, EraseLast, EraseSome, InOrder;
      CutTwice(text, n);
    }
  }

  lemma CutTwice(text: bytes, n: nat)
    requires 1 <= n <= |text|
    ensures text[..|text| - 1][..|text| - 1 - (n - 1)] == text[..|text| - n]
  {
  }

  lemma {:induction false} SendAllPicks(h: seq<Typed>)
    requires InOrder(h)
    ensures Pick(SendAll(h), Buffered) == []
    ensures Pick(SendAll(h), Sent) == Pick(h, Sent) + Pick(h, Buffered)
    ensures InOrder(SendAll(h))
    decreases |h|
  {
    if h != [] {
      var n := |h| - 1;
      SendAllPicks(h[..n]);
      var t := if h[n].fate.Buffered? then h[n].(fate := Sent) else h[n];
      PickSnoc(SendAll(h[..n]), t, Buffered);
      PickSnoc(SendAll(h[..n]), t, Sent);
      if h[n].fate.Sent? {
        NoneBuffered(h[..n]);
      }
      NothingBuffered(h);
    }
  }

  lemma {:induction false} NoneBuffered(h: seq<Typed>)
    requires forall k :: 0 <= k < |h| ==> !h[k].fate.Buffered?
    ensures Pick(h, Buffered) == []
    decreases |h|
  {
    if h != [] {
      NoneBuffered(h[..|h| - 1]);
    }
  }

  lemma {:induction false} NothingBuffered(h: seq<Typed>)
    ensures forall k :: 0 <= k < |h| ==> !SendAll(h)[k].fate.Buffered?
    decreases |h|
  {
    if h != [] {
      NothingBuffered(h[..|h| - 1]);
    }
  }

  lemma InsertAccounts(cfg: Config, e: Editor, h: seq<Typed>, b: byte)
    requires Accounts(e, h)
    ensures Accounts(Insert(cfg, e, b), h + [Typed(b, Buffered)])
  {
    PickSnoc(h, Typed(b, Buffered), Buffered);
    PickSnoc(h, Typed(b, Buffered), Sent);
  }

  lemma EraseAccounts(cfg: Config, e: Editor, h: seq<Typed>, n: nat)
    requires Accounts(e, h) && n <= |e.buf|
    ensures Accounts(EraseTo(cfg, e, |e.buf| - n), EraseSome(h, n))
  {
    EraseSomePicks(h, n);
  }

  lemma SendAccounts(e: Editor, h: seq<Typed>)
    requires Accounts(e, h)
    ensures Accounts(SendBuffer(e), SendAll(h))
  {
    SendAllPicks(h);
    SentSnoc(e.traffic, SendText(e.buf));
  }

  lemma CallAccounts(e: Editor, h: seq<Typed>, t: Traffic)
    requires Accounts(e, h) && !t.SendText?
    ensures Accounts(Call(e, t), h)
  {
    SentSnoc(e.traffic, t);
  }

  lemma NewlineAccounts(cfg: Config, e: Editor, h: seq<Typed>)
    requires Accounts(e, h)
    ensures Accounts(Newline(cfg, e), SendAll(h))
  {
    SendAccounts(e, h);
    CallAccounts(SendBuffer(e), SendAll(h), LineEnd(cfg));
  }

  lemma SignalAccounts(e: Editor, h: seq<Typed>, c: Key)
    requires Accounts(e, h)
    ensures Accounts(Signal(e, c), h)
  {
    hide Accounts;
    CallAccounts(e, h, Special(Interrupt));
    CallAccounts(e, h, Special(Suspend));
    CallAccounts(e, h, Special(Abort));
  }

  lemma SameAccounts(e: Editor, f: Editor, h: seq<Typed>)
    requires Accounts(e, h) && f.buf == e.buf && f.traffic == e.traffic
    ensures Accounts(f, h)
  {
  }

  lemma {:induction false} NothingToErase(h: seq<Typed>)
    ensures Pick(h, Buffered) == [] ==> EraseLast(h) == h
    decreases |h|
  {
    if h != [] {
      var n := |h| - 1;
      NothingToErase(h[..n]);
      assert h == h[..n] + [h[n]];
    }
  }

  lemma EraseOne(h: seq<Typed>)
    ensures EraseSome(h, 1) == EraseLast(h)
  {
    assert EraseSome(EraseLast(h), 0) == EraseLast(h);
  }

  lemma EraseLineAccounts(cfg: Config, e: Editor, h: seq<Typed>, c: Key)
    requires Accounts(e, h)
    ensures var erased := Call(EraseTo(cfg, e, 0), Special(EraseLine));
      var g := EraseSome(h, |Pick(h, Buffered)|);
      && g + [] == g
      && Accounts(Signal(erased, c), g)
      && Accounts(Insert(cfg, erased, c % 256), g + [Typed(c % 256, Buffered)])
  {
    assert e.buf == Pick(h, Buffered);
    hide Accounts, Pick, EraseTo, EraseSome, Insert, Signal;
    var erased := Call(EraseTo(cfg, e, 0), Special(EraseLine));
    var g := EraseSome(h, |e.buf|);
    EraseAccounts(cfg, e, h, |e.buf|);
    CallAccounts(EraseTo(cfg, e, 0), g, Special(EraseLine));
    SignalAccounts(erased, g, c);
    InsertAccounts(cfg, erased, g, c % 256);
  }

  lemma EndOfFileAccounts(e: Editor, h: seq<Typed>)
    requires Accounts(e, h)
    ensures e.buf == [] ==> Accounts(Call(e, Special(EndOfFile)), SendAll(h))
    ensures e.buf != [] ==> Accounts(SendBuffer(e), SendAll(h))
  {
    hide Accounts, SendAll, SendBuffer;
    SendAccounts(e, h);
    EmptySend(e);
    CallAccounts(SendBuffer(e), SendAll(h), Special(EndOfFile));
  }

  lemma RawReturnAccounts(cfg: Config, e: Editor, h: seq<Typed>)
    requires Accounts(e, h) && e.buf != []
    ensures Accounts(Newline(cfg, EraseTo(cfg, e, |e.buf| - 1)), SendAll(EraseLast(h)))
  {
    assert e.buf == Pick(h, Buffered);
    hide Accounts, Pick, EraseTo, EraseSome, EraseLast, Newline;
    EraseOne(h);
    EraseAccounts(cfg, e, h, 1);
    NewlineAccounts(cfg, EraseTo(cfg, e, |e.buf| - 1), EraseLast(h));
  }

  lemma BufferAccounted(e: Editor, h: seq<Typed>)
    requires Accounts(e, h)
    ensures e.buf == Pick(h, Buffered)
  {
    hide Pick, SentText, InOrder;
  }

  /** Every key does to the editor what it means for the history. */
  lemma StepAccounts(cfg: Config, e: Editor, h: seq<Typed>, c: Key)
    requires Accounts(e, h)
    ensures Accounts(Step(cfg, e, c), Judge(cfg, h, e.quotenext, c))
  {
    hide Accounts;
    BufferAccounted(e, h);
    EraseOne(h);
    NothingToErase(h);
    hide Pick, Looks, LineEnd, EraseTo, EraseSome, EraseLast, Insert, Newline, SendBuffer, Echo, WordStart, Signal;
    if e.quotenext {
      InsertAccounts(cfg, e, h, c % 256);
    } else if c == KEY_BACKSPACE || c == KEY_DELETE {
      if e.buf != [] { EraseAccounts(cfg, e, h, 1); }
    } else if c == CTRL_W {
      if e.buf != [] { EraseAccounts(cfg, e, h, |e.buf| - WordStart(e.buf, |e.buf| - 1)); }
    } else if c == CTRL_U || c == CTRL_C || c == CTRL_BACKSLASH || c == CTRL_Z {
      EraseLineAccounts(cfg, e, h, c);
    } else if c == CTRL_R {
      EchoOnlyScreen(cfg, e, REDRAW + Looks(e.buf, cfg.utf));
      SameAccounts(e, Step(cfg, e, c), h);
    } else if c == CTRL_V {
      SameAccounts(e, e.(quotenext := true), h);
    } else if c == CTRL_D {
      EndOfFileAccounts(e, h);
    } else if c == CTRL_J && cfg.protocol.Raw? && e.buf != [] && e.buf[|e.buf| - 1] == CR {
      RawReturnAccounts(cfg, e, h);
    } else if c == KEY_RETURN {
      NewlineAccounts(cfg, e, h);
    } else {
      InsertAccounts(cfg, e, h, c % 256);
    }
  }

  lemma EchoOnlyScreen(cfg: Config, e: Editor, text: bytes)
    ensures Echo(cfg, e, text).buf == e.buf && Echo(cfg, e, text).traffic == e.traffic
    ensures Echo(cfg, e, text).quotenext == e.quotenext
  {
  }

  lemma EmptySend(e: Editor)
    ensures e.buf == [] ==> SendBuffer(e) == e
  {
  }

  /** What has happened to a byte is final: only a byte still in the buffer can meet a fate. */
  predicate Later(h: seq<Typed>, g: seq<Typed>) {
    && |h| <= |g|
    && forall k :: 0 <= k < |h| ==> g[k].b == h[k].b && (!h[k].fate.Buffered? ==> g[k].fate == h[k].fate)
  }

  lemma {:induction false} EraseSomeLater(h: seq<Typed>, n: nat)
    ensures Later(h, EraseSome(h, n))
    decreases n
  {
    if n > 0 {
      OnlyFewerBuffered(h);
      EraseSomeLater(EraseLast(h), n - 1);
    }
  }

  lemma {:induction false} SendAllLater(h: seq<Typed>)
    ensures Later(h, SendAll(h))
    decreases |h|
  {
    if h != [] {
      SendAllLater(h[..|h| - 1]);
    }
  }

  lemma SendErasedLater(h: seq<Typed>)
    ensures Later(h, SendAll(EraseLast(h)))
  {
    hide EraseLast, SendAll;
    OnlyFewerBuffered(h);
    SendAllLater(EraseLast(h));
  }

  /** Fates are final from `h` to `g`, and at most the byte `b` has been added. */
  predicate Goes(h: seq<Typed>, g: seq<Typed>, b: byte) {
    Later(h, g) && |g| <= |h| + 1 && (|g| == |h| + 1 ==> g[|h|] == Typed(b, Buffered))
  }

  lemma OneMore(h: seq<Typed>, g: seq<Typed>, b: byte)
    requires Later(h, g) && |g| == |h|
    ensures Goes(h, g, b) && Goes(h, g + [Typed(b, Buffered)], b) && Goes(h, g + [], b)
  {
  }

  lemma ErasedGoes(h: seq<Typed>, n: nat, b: byte)
    ensures Goes(h, EraseSome(h, n), b) && Goes(h, EraseSome(h, n) + [Typed(b, Buffered)], b)
    ensures Goes(h, EraseSome(h, n) + [], b)
  {
    EraseSomeLater(h, n);
    OneMore(h, EraseSome(h, n), b);
  }

  lemma JudgeGoes(cfg: Config, h: seq<Typed>, quoted: bool, c: Key)
    ensures Goes(h, Judge(cfg, h, quoted, c), c % 256)
  {
    hide Pick, EraseSome, EraseLast, SendAll, WordStart, Later, Goes;
    var text, b := Pick(h, Buffered), c % 256;
    ErasedGoes(h, |text|, b);
    if text != [] {
      ErasedGoes(h, |text| - WordStart(text, |text| - 1), b);
    }
    ErasedGoes(h, 1, b);
    EraseOne(h);
    SendAllLater(h);
    OneMore(h, SendAll(h), b);
    SendErasedLater(h);
    OneMore(h, SendAll(EraseLast(h)), b);
    assert Later(h, h) by { EraseSomeLater(h, 0); EraseNone(h); }
    OneMore(h, h, b);
  }

  lemma EraseNone(h: seq<Typed>)
    ensures EraseSome(h, 0) == h
  {
  }

  lemma FatesAreFinal(cfg: Config, h: seq<Typed>, quoted: bool, c: Key)
    ensures Later(h, Judge(cfg, h, quoted, c))
    ensures |Judge(cfg, h, quoted, c)| <= |h| + 1
    ensures |Judge(cfg, h, quoted, c)| == |h| + 1 ==> Judge(cfg, h, quoted, c)[|h|] == Typed(c % 256, Buffered)
  {
    hide Judge, Later;
    JudgeGoes(cfg, h, quoted, c);
  }

  // -------------------------------------------------------------------------------------------
  // Runs
  // -------------------------------------------------------------------------------------------

  /** The history that a run of keys makes. */
  function Judged(cfg: Config, e: Editor, keys: seq<Key>): seq<Typed> {
    if keys == [] then []
    else
      var n := |keys| - 1;
      Judge(cfg, Judged(cfg, e, keys[..n]), Steps(cfg, e, keys[..n]).quotenext, keys[n])
  }

  /** An editor as ldisc_create leaves it, whatever the terminal shows. */
  predicate Fresh(e: Editor) {
    e.buf == [] && !e.quotenext && e.traffic == [] && AtEnd(e.screen)
  }

  /** After every run of keys from a fresh start: with echo on, the line ends with exactly the buffer's look;
      with echo off, the screen has not changed; and every byte typed has one fate, the buffer holding those
      still buffered and the back end having got those sent, each once and in order. */
  lemma {:induction false} EveryRun(cfg: Config, e: Editor, keys: seq<Key>)
    requires Fresh(e)
    ensures cfg.echoing ==> Shows(cfg, Steps(cfg, e, keys))
    ensures !cfg.echoing ==> Steps(cfg, e, keys).screen == e.screen
    ensures Accounts(Steps(cfg, e, keys), Judged(cfg, e, keys))
    decreases |keys|
  {
    if keys != [] {
      var n := |keys| - 1;
      EveryRun(cfg, e, keys[..n]);
      hide Shows, Step, Accounts, Judge;
      var f := Steps(cfg, e, keys[..n]);
      if cfg.echoing {
        StepShows(cfg, f, keys[n]);
      } else {
        StepSilent(cfg, f, keys[n]);
      }
      StepAccounts(cfg, f, Judged(cfg, e, keys[..n]), keys[n]);
    }
  }

  // -------------------------------------------------------------------------------------------
  // The editor in memory
  // -------------------------------------------------------------------------------------------

  lemma EraseToJoin(cfg: Config, e: Editor, m: nat, n: nat)
    requires n <= m <= |e.buf|
    ensures EraseTo(cfg, EraseTo(cfg, e, m), n) == EraseTo(cfg, e, n)
  {
    hide Looks, Rub;
    var a, b := e.buf[n..m], e.buf[m..];
    ThreePieces(e.buf, n, m);
    LooksJoin(a, b, cfg.utf);
    RubJoin(e.screen, |Looks(b, cfg.utf)|, |Looks(a, cfg.utf)|);
    var f := EraseTo(cfg, e, m);
    assert f.buf[n..] == a && f.buf[..n] == e.buf[..n];
  }

  lemma ThreePieces(s: bytes, n: nat, m: nat)
    requires n <= m <= |s|
    ensures s[..m][..n] == s[..n] && s[..m][n..] == s[n..m] && s[n..] == s[n..m] + s[m..]
  {
  }

  lemma EraseOneChar(cfg: Config, e: Editor)
    requires e.buf != []
    ensures var n := |e.buf| - 1;
      EraseTo(cfg, e, n) == e.(
        buf := e.buf[..n], screen := if cfg.echoing then Rub(e.screen, Plen(e.buf[n], cfg.utf)) else e.screen)
  {
    var n := |e.buf| - 1;
    assert e.buf[n..] == [e.buf[n]] && [e.buf[n]][..0] == [];
    assert Looks([], cfg.utf) == [];
    assert Looks([e.buf[n]], cfg.utf) == [] + Look(e.buf[n], cfg.utf);
  }

  lemma EraseNothing(cfg: Config, e: Editor)
    ensures EraseTo(cfg, e, |e.buf|) == e
  {
    assert e.buf[..|e.buf|] == e.buf && e.buf[|e.buf|..] == [];
  }

  /** The codes that ldisc_send makes of its argument: special strings come with a flag, and pasted returns count
      as the return key. */
  function KeysOf(text: bytes, special: bool, interactive: bool): (keys: seq<Key>)
    ensures |keys| == |text|
  {
    seq(|text|, k requires 0 <= k < |text| => KeyOf(text[k], special, interactive))
  }

  function KeyOf(b: byte, special: bool, interactive: bool): Key {
    if special then b + KEY else if !interactive && b == CR then b + KEY else b
  }

  class Ldisc {
    const cfg: Config
    var buf: array<byte>
    var buflen: nat
    var bufsiz: nat
    var quotenext: bool
    var screen: Screen
    var traffic: seq<Traffic>

    ghost predicate Valid()
      reads this
    {
      buflen <= bufsiz == buf.Length
    }

    ghost function View(): Editor
      requires Valid()
      reads this, buf
    {
      Editor(buf[..buflen], quotenext, screen, traffic)
    }

    /** ldisc_create. */
    constructor (cfg: Config, screen: Screen)
      ensures Valid() && fresh(buf) && this.cfg == cfg
      ensures View() == Editor([], false, screen, [])
    {
      this.cfg, this.screen, traffic := cfg, screen, [];
      buf := new byte[0];
      buflen, bufsiz, quotenext := 0, 0, false;
    }

    /** c_write. */
    method CWrite(text: bytes)
      modifies this`screen
      ensures screen == Type(old(screen), text)
    {
      screen := Type(screen, text);
    }

    /** bsb. */
    method Bsb(count: nat)
      modifies this`screen
      ensures screen == Rub(old(screen), count)
    {
      var n := count;
      while n > 0
        invariant n >= 0 && Rub(screen, n) == Rub(old(screen), count)
      {
        n := n - 1;
        CWrite(RUBOUT);
      }
    }

    /** Deletes one character. */
    method DropLast()
      requires Valid() && buflen > 0
      modifies this`screen, this`buflen
      ensures Valid() && View() == EraseTo(cfg, old(View()), old(buflen) - 1)
      ensures buflen == old(buflen) - 1
    {
      EraseOneChar(cfg, View());
      hide EraseTo, Rub;
      if cfg.echoing {
        Bsb(Plen(buf[buflen - 1], cfg.utf));
      }
      buflen := buflen - 1;
      assert buf[..buflen] == old(View()).buf[..buflen];
    }

    /** The loop of ^W. */
    method DropWord()
      requires Valid()
      modifies this`screen, this`buflen
      ensures Valid()
      ensures View() == if old(buflen) == 0 then old(View())
              else EraseTo(cfg, old(View()), WordStart(old(View()).buf, old(buflen) - 1))
    {
      hide EraseTo;
      ghost var e := View();
      EraseNothing(cfg, e);
      ghost var top := if buflen == 0 then 0 else WordStart(e.buf, buflen - 1);
      while buflen > 0
        invariant Valid() && buflen <= |e.buf| && View() == EraseTo(cfg, e, buflen)
        invariant buflen > 0 ==> WordStart(e.buf, buflen - 1) == top
        invariant buflen == 0 ==> top == 0
      {
        ghost var n := buflen;
        DropLast();
        EraseToJoin(cfg, e, n, buflen);
        assert forall k :: 0 <= k < n ==> buf[k] == e.buf[k];
        if buflen > 0 && IsSpace(buf[buflen - 1]) && !IsSpace(buf[buflen]) {
          break;
        }
      }
    }

    /** The loop of ^U. */
    method DropLine()
      requires Valid()
      modifies this`screen, this`buflen
      ensures Valid() && View() == EraseTo(cfg, old(View()), 0)
    {
      hide EraseTo;
      ghost var e := View();
      EraseNothing(cfg, e);
      while buflen > 0
        invariant Valid() && buflen <= |e.buf| && View() == EraseTo(cfg, e, buflen)
      {
        ghost var n := buflen;
        DropLast();
        EraseToJoin(cfg, e, n, buflen);
      }
    }

    /** The default case: appends to the buffer, which grows by 256 bytes when full. */
    method InsertByte(b: byte)
      requires Valid()
      modifies this`screen, this`buflen, this`bufsiz, this`buf, this`quotenext, buf
      ensures Valid() && View() == Insert(cfg, old(View()), b)
      ensures buf == old(buf) || fresh(buf)
    {
      hide Look, Type;
      if buflen >= bufsiz {
        bufsiz := buflen + 256;
        var larger := new byte[bufsiz];
        forall k | 0 <= k < buflen {
          larger[k] := buf[k];
        }
        buf := larger;
      }
      assert buf[..buflen] == old(View()).buf;
      buf[buflen] := b;
      buflen := buflen + 1;
      assert buf[..buflen] == old(View()).buf + [b];
      if cfg.echoing {
        CWrite(Look(b, cfg.utf));
      }
      quotenext := false;
    }

    /** Hands the line, if there is one, to the back end. */
    method SendLine()
      requires Valid()
      modifies this`traffic, this`buflen
      ensures Valid() && View() == SendBuffer(old(View()))
    {
      if buflen > 0 {
        traffic := traffic + [SendText(buf[..buflen])];
      }
      buflen := 0;
    }

    method Return()
      requires Valid()
      modifies this`traffic, this`buflen, this`screen
      ensures Valid() && View() == Newline(cfg, old(View()))
    {
      hide Type, SendBuffer;
      SendLine();
      traffic := traffic + [LineEnd(cfg)];
      if cfg.echoing {
        CWrite(CRLF);
      }
    }

    /** ^R. */
    method Redraw()
      requires Valid()
      modifies this`screen
      ensures Valid() && View() == Echo(cfg, old(View()), REDRAW + Looks(old(View()).buf, cfg.utf))
    {
      hide Type, Look;
      if cfg.echoing {
        ghost var text := buf[..buflen];
        CWrite(REDRAW);
        var i := 0;
        assert REDRAW + Looks([], cfg.utf) == REDRAW;
        assert text[..0] == [];
        while i < buflen
          invariant i <= buflen && screen == Type(old(screen), REDRAW + Looks(text[..i], cfg.utf))
        {
          assert text[..i + 1][..i] == text[..i];
          assert REDRAW + Looks(text[..i + 1], cfg.utf) == REDRAW + Looks(text[..i], cfg.utf) + Look(text[i], cfg.utf);
          TypeJoin(old(screen), REDRAW + Looks(text[..i], cfg.utf), Look(text[i], cfg.utf));
          CWrite(Look(buf[i], cfg.utf));
          i := i + 1;
        }
        assert text[..buflen] == text;
      }
    }

    /** One round of the loop in ldisc_send. */
    method TakeKey(c: Key)
      requires Valid()
      modifies this, buf
      ensures Valid() && View() == Step(cfg, old(View()), c)
      ensures buf == old(buf) || fresh(buf)
    {
      hide EraseTo, Insert, Newline, SendBuffer, Echo, WordStart, Looks;
      assert buflen > 0 ==> View().buf[buflen - 1] == buf[buflen - 1];
      if quotenext {
        InsertByte(c % 256);
      } else if c == KEY_BACKSPACE || c == KEY_DELETE {
        if buflen > 0 { DropLast(); }
      } else if c == CTRL_W {
        DropWord();
      } else if c == CTRL_U || c == CTRL_C || c == CTRL_BACKSLASH || c == CTRL_Z {
        DropLine();
        traffic := traffic + [Special(EraseLine)];
        if !cfg.telnetKeyboard {
          InsertByte(c % 256);
        } else {
          if c == CTRL_C { traffic := traffic + [Special(Interrupt)]; }
          if c == CTRL_Z { traffic := traffic + [Special(Suspend)]; }
          if c == CTRL_BACKSLASH { traffic := traffic + [Special(Abort)]; }
        }
      } else if c == CTRL_R {
        Redraw();
      } else if c == CTRL_V {
        quotenext := true;
      } else if c == CTRL_D {
        if buflen == 0 {
          traffic := traffic + [Special(EndOfFile)];
        } else {
          SendLine();
        }
      } else if c == CTRL_J && cfg.protocol.Raw? && buflen > 0 && buf[buflen - 1] == CR {
        DropLast();
        Return();
      } else if c == KEY_RETURN {
        Return();
      } else {
        InsertByte(c % 256);
      }
    }

    /** ldisc_send while local editing is on. */
    method Send(text: bytes, special: bool, interactive: bool)
      requires Valid()
      modifies this, buf
      ensures Valid() && View() == Steps(cfg, old(View()), KeysOf(text, special, interactive))
    {
      hide Step;
      ghost var keys := KeysOf(text, special, interactive);
      ghost var e := View();
      var i := 0;
      assert keys[..0] == [];
      while i < |text|
        invariant i <= |text| && Valid() && View() == Steps(cfg, e, keys[..i])
        invariant buf == old(buf) || fresh(buf)
      {
        TakeKey(KeyOf(text[i], special, interactive));
        assert keys[..i + 1][..i] == keys[..i];
        i := i + 1;
      }
      assert keys[..|text|] == keys;
    }
  }
}
