/**
 * The record behind a forwarded connection (struct PFwdPrivate in PORTFWD.C) and its handlers, with
 * the fields and the buffer of the source. Every handler is proved to do what `SocksServer` says.
 */
module PortForwarding {
  import opened Bytes
  import opened SocksServer

  /** What the per-byte code does next: read on, jump to `connect`, or return after a close. */
  datatype Next = ReadOn | DoConnect | Stop

  class PortForward {
    var dynamic: int
    const hostname: array<byte>
    var port: nat
    var buffer: bytes
    var ready: bool
    var throttled: bool
    var throttleOverride: bool
    // The outside world: the socket and the channel.
    var socketFrozen: bool
    var socketClosed: bool
    var socketOut: bytes
    var request: Option<Request>
    var channelOut: bytes
    // How far the exchange has come, and what pfd_send wrote after it.
    ghost var talk: Talk
    ghost var sent: bytes

    ghost predicate Valid()
      reads this, hostname
    {
      && hostname.Length == HOSTNAME_SIZE
      && socketOut == talk.written + sent
      && (talk.Refused? ==> socketClosed)
      && (!socketClosed && talk.Complete? ==> dynamic == PLAIN)
      && (!socketClosed && talk.Going? ==> InExchange())
    }

    /** While the exchange is going, `hostname` and `port` are the protocol buffer. */
    ghost predicate InExchange()
      reads this, hostname
    {
      && hostname.Length == HOSTNAME_SIZE
      && talk.Going? && dynamic != PLAIN && dynamic == talk.dynamic
      && port <= HOSTNAME_SIZE && talk.buf == hostname[..port]
      && sent == [] && buffer == [] && socketOut == talk.written
    }

    ghost function View(): Server
      reads this
    {
      Server(talk, socketClosed, request, socketFrozen, ready, throttled, throttleOverride, buffer, channelOut, sent)
    }

    /** pfd_accepting, for a dynamic listener. */
    constructor ()
      ensures Valid() && View() == ACCEPTED && fresh(hostname)
    {
      dynamic, port, buffer, ready := FIRST, 0, [], false;
      hostname := new byte[HOSTNAME_SIZE];
      throttled, throttleOverride := false, false;
      socketFrozen, socketClosed, socketOut := false, false, [];
      request, channelOut := None, [];
      talk, sent := FRESH, [];
    }

    /** The record once a byte has brought the exchange to where it stands now. */
    ghost predicate Ready(next: Next)
      reads this, hostname
    {
      && hostname.Length == HOSTNAME_SIZE
      && sent == [] && buffer == [] && socketOut == talk.written && (socketClosed <==> talk.Refused?)
      && match next
         case ReadOn => InExchange()
         case DoConnect => talk.Complete? && talk.request == Request(CString(hostname[..]), port)
         case Stop => talk.Refused?
    }

    /** Write `reply` and close. */
    method Refuse(reply: bytes) returns (next: Next)
      requires InExchange()
      modifies this
      ensures Ready(next)
      ensures View() == old(View()).(talk := Refused(old(talk).written + reply), closed := true)
    {
      socketOut := socketOut + reply;
      socketClosed := true;
      talk := Refused(talk.written + reply);
      next := Stop;
    }

    /** sprintf into `hostname`: the text and its NUL. */
    method Print(text: bytes)
      requires hostname.Length == HOSTNAME_SIZE && |text| < HOSTNAME_SIZE && NulFree(text)
      modifies hostname
      ensures CString(hostname[..]) == text
    {
      var i := 0;
      while i < |text|
        invariant 0 <= i <= |text| && hostname[..i] == text[..i]
      {
        hostname[i] := text[i];
        i := i + 1;
      }
      hostname[i] := 0;
      assert hostname[..][..i] == text;
      assert forall k :: 0 <= k < i ==> hostname[..][k] == text[k];
      FirstNulIs(hostname[..], 0, i);
    }

    /** memmove of `len` bytes down to the start of `hostname`. */
    method MoveDown(from: nat, len: nat)
      requires from + len <= hostname.Length
      modifies hostname
      ensures hostname[..len] == old(hostname[from..from + len])
    {
      forall k | 0 <= k < len {
        hostname[k] := hostname[from + k];
      }
    }

    /** A complete SOCKS4A request: the name lies behind the header, with its NUL. */
    method GrantName()
      requires InExchange() && port > 8 && hostname[port - 1] == 0 && !socketClosed
      modifies this, hostname
      ensures Ready(DoConnect)
      ensures var h := old(talk.buf);
              View() == old(View()).(
                talk := Complete(Request(CString(h[8..]), Word(h[2], h[3])), old(talk.written) + Granted4(h)))
    {
      hide FirstNul;
      ghost var h := talk.buf;
      assert h[8..][|h| - 9] == 0;
      var reply: bytes := [0, 90] + hostname[2..8];
      assert reply == Granted4(h);
      socketOut := socketOut + reply;
      var len := port - 8;
      port := Word(hostname[2], hostname[3]);
      MoveDown(8, len);
      assert hostname[..len] == h[8..] <= hostname[..];
      StringAt(hostname[..], h[8..]);
      talk := Complete(Request(CString(h[8..]), port), talk.written + reply);
    }

    /** A complete SOCKS4 request: the address is printed over the buffer. */
    method GrantAddress()
      requires InExchange() && port > 8 && !socketClosed
      modifies this, hostname
      ensures Ready(DoConnect)
      ensures var h := old(talk.buf);
              View() == old(View()).(
                talk := Complete(Request(DottedQuad(h[4..8]), Word(h[2], h[3])), old(talk.written) + Granted4(h)))
    {
      hide FirstNul, CString, DottedQuad;
      ghost var h := talk.buf;
      var reply: bytes := [0, 90] + hostname[2..8];
      assert reply == Granted4(h);
      socketOut := socketOut + reply;
      port := Word(hostname[2], hostname[3]);
      assert hostname[4..8] == h[4..8];
      var quad := DottedQuad(hostname[4..8]);
      Print(quad);
      talk := Complete(Request(quad, port), talk.written + reply);
    }

    /** The SOCKS4 branch, once the new byte is in the buffer. */
    method Socks4() returns (next: Next)
      requires InExchange() && port >= 1
      requires !socketClosed
      modifies this, hostname
      ensures Ready(next)
      ensures var t := Step4(old(dynamic), old(talk.buf), old(talk.written));
              View() == old(View()).(talk := t, closed := t.Refused?)
    {
      hide DottedQuad, FirstNul, CString, Granted4;
      ghost var h := talk.buf;
      if port < 2 {
        return ReadOn;
      }
      if hostname[1] != 1 {
        next := Refuse(REFUSED4);
        return;
      }
      if port <= 8 || hostname[port - 1] != 0 {
        return ReadOn;
      }
      if hostname[4] == 0 && hostname[5] == 0 && hostname[6] == 0 && hostname[7] != 0 {
        if dynamic == SOCKS4_REQUEST {
          dynamic := SOCKS4A_NAME;
          port := 8;
          talk := Going(SOCKS4A_NAME, h[..8], talk.written);
          return ReadOn;
        }
        GrantName();
      } else {
        GrantAddress();
      }
      next := DoConnect;
    }

    /** The method to answer with, among the `n` offered. */
    method ChooseMethod(n: nat) returns (choice: byte)
      requires hostname.Length == HOSTNAME_SIZE && 2 + n <= HOSTNAME_SIZE
      ensures choice == Method(hostname[2..2 + n])
    {
      choice := 0xFF;
      var i := 0;
      while i < n
        invariant 0 <= i <= n
        invariant choice == 0xFF && 0 !in hostname[2..2 + i]
      {
        if hostname[2 + i] == 0 {
          choice := 0;
          assert hostname[2..2 + n][i] == 0;
          return;
        }
        i := i + 1;
      }
    }

    /** The SOCKS5 branch while the list of methods is coming in. */
    method Socks5Methods()
      requires InExchange() && port >= 1 && dynamic == SOCKS5_METHODS && !socketClosed
      modifies this
      ensures Ready(ReadOn)
      ensures View() == old(View()).(talk := Step5Methods(old(talk.buf), old(talk.written)))
    {
      hide Method;
      if port < 2 || port < 2 + hostname[1] as int {
        return;
      }
      var choice := ChooseMethod(hostname[1]);
      assert talk.buf[2..2 + hostname[1] as int] == hostname[2..2 + hostname[1] as int];
      socketOut := socketOut + [5, choice];
      talk := Going(SOCKS5_REQUEST, [], talk.written + [5, choice]);
      dynamic := SOCKS5_REQUEST;
      port := 0;
    }

    /** The two ways in which a SOCKS5 request names a host. */
    method SuccessAddress()
      requires InExchange() && port >= 10 && !socketClosed
      modifies this, hostname
      ensures hostname.Length == HOSTNAME_SIZE && CString(hostname[..]) == DottedQuad(old(talk.buf)[4..8])
      ensures View() == old(View()) && socketOut == old(socketOut) + Reply5(0)
    {
      hide FirstNul, CString, DottedQuad;
      socketOut := socketOut + Reply5(0);
      assert hostname[4..8] == talk.buf[4..8];
      Print(DottedQuad(hostname[4..8]));
    }

    method SuccessName(alen: nat)
      requires InExchange() && 1 <= alen <= 256 && port >= 6 + alen && !socketClosed
      modifies this, hostname
      ensures hostname.Length == HOSTNAME_SIZE && CString(hostname[..]) == CString(old(talk.buf)[5..4 + alen])
      ensures View() == old(View()) && socketOut == old(socketOut) + Reply5(0)
    {
      hide FirstNul, CString;
      ghost var name := talk.buf[5..4 + alen];
      socketOut := socketOut + Reply5(0);
      MoveDown(5, alen - 1);
      hostname[alen - 1] := 0;
      assert hostname[..alen - 1] == name;
      assert hostname[..][..alen - 1] == name;
      StringEnds(hostname[..], name);
    }

    /** The SOCKS5 branch while the request is coming in. */
    method Socks5Request() returns (next: Next)
      requires InExchange() && dynamic == SOCKS5_REQUEST && !socketClosed
      modifies this, hostname
      ensures Ready(next)
      ensures var t := Step5Request(old(talk.buf), old(talk.written));
              View() == old(View()).(talk := t, closed := t.Refused?)
    {
      hide DottedQuad, FirstNul, CString, Reply5;
      ghost var h, w := talk.buf, talk.written;
      if port < 6 {
        return ReadOn;
      }
      var atype, alen := hostname[3], 0;
      if atype == 1 { alen := 4; }
      if atype == 4 { alen := 16; }
      if atype == 3 { alen := 1 + hostname[4] as int; }
      assert alen == AddressLength(h);
      if port < 6 + alen {
        return ReadOn;
      }
      if hostname[1] != 1 || hostname[2] != 0 {
        next := Refuse(Reply5(1));
        return;
      }
      var target := Word(hostname[4 + alen], hostname[5 + alen]);
      if atype == 1 {
        SuccessAddress();
      } else if atype == 3 {
        SuccessName(alen);
      } else {
        next := Refuse(Reply5(8));
        return;
      }
      port := target;
      talk := Complete(Request(CString(hostname[..]), port), w + Reply5(0));
      next := DoConnect;
    }

    /** Put the byte into the buffer. */
    method Append(b: byte)
      requires InExchange() && !socketClosed && port < HOSTNAME_SIZE
      modifies this`port, this`talk, hostname
      ensures InExchange() && port == old(port) + 1
      ensures View() == old(View()).(talk := Going(old(talk.dynamic), old(talk.buf) + [b], old(talk.written)))
    {
      hostname[port] := b;
      port := port + 1;
      talk := Going(dynamic, talk.buf + [b], talk.written);
      assert hostname[..port] == old(hostname[..port]) + [b];
    }

    /** `dynamic` is set when the first byte tells the version. */
    method Version(first: int)
      requires InExchange() && first != PLAIN
      modifies this`dynamic, this`talk
      ensures InExchange()
      ensures dynamic == if old(dynamic) == FIRST then first else old(dynamic)
      ensures View() == old(View()).(talk := Going(dynamic, old(talk.buf), old(talk.written)))
    {
      if dynamic == FIRST {
        dynamic := first;
        talk := talk.(dynamic := first);
      }
    }

    /** The SOCKS5 branch, once the new byte is in the buffer. */
    method Socks5() returns (next: Next)
      requires InExchange() && !socketClosed && port >= 1
      modifies this, hostname
      ensures Ready(next)
      ensures var t := Interpretation5(old(dynamic), old(talk.buf), old(talk.written));
              View() == old(View()).(talk := t, closed := t.Refused?)
    {
      hide Step5Methods, Step5Request, CString, FirstNul;
      if dynamic == SOCKS5_METHODS {
        Socks5Methods();
        next := ReadOn;
      } else if dynamic == SOCKS5_REQUEST {
        next := Socks5Request();
      } else {
        assert talk.written + [] == talk.written;
        next := Refuse([]);
      }
    }

    /** What the buffer now amounts to. */
    method Interpret() returns (next: Next)
      requires InExchange() && !socketClosed && port >= 1
      modifies this, hostname
      ensures Ready(next)
      ensures var t := Interpretation(old(talk));
              View() == old(View()).(talk := t, closed := t.Refused?)
    {
      hide Step4, Interpretation5, CString, FirstNul;
      if (dynamic == FIRST || Major(dynamic) == 4) && hostname[0] == 4 {
        Version(SOCKS4_REQUEST);
        next := Socks4();
      } else if (dynamic == FIRST || Major(dynamic) == 5) && hostname[0] == 5 {
        Version(SOCKS5_METHODS);
        next := Socks5();
      } else {
        assert talk.written + [] == talk.written;
        next := Refuse([]);
      }
    }

    /** The body of the loop for one received byte. */
    method TakeByte(b: byte) returns (next: Next)
      requires InExchange() && !socketClosed
      modifies this, hostname
      ensures Ready(next)
      ensures var t := Step(old(talk), b);
              View() == old(View()).(talk := t, closed := t.Refused?)
    {
      hide Interpretation, CString, FirstNul;
      if port >= hostname.Length {
        assert talk.written + [] == talk.written;
        next := Refuse(if Major(dynamic) == 4 then REFUSED4 else []);
        return;
      }
      Append(b);
      next := Interpret();
    }

    /** The loop over one read; `rest` is what it leaves. */
    method Exchange(data: bytes) returns (next: Next, rest: bytes)
      requires InExchange() && !socketClosed
      modifies this, hostname
      ensures Ready(next) && Converse(old(talk), data) == (talk, rest)
      ensures View() == old(View()).(talk := talk, closed := talk.Refused?)
    {
      hide Step, CString, FirstNul;
      next, rest := ReadOn, data;
      while rest != [] && next == ReadOn
        invariant Ready(next)
        invariant View() == old(View()).(talk := talk, closed := talk.Refused?)
        invariant Converse(old(talk), data) == Converse(talk, rest)
        decreases |rest|
      {
        next := TakeByte(rest[0]);
        rest := rest[1..];
      }
    }

    /** The code at the label `connect`: `rest` is kept until the connection is confirmed. */
    method Connect(rest: bytes)
      requires Ready(DoConnect)
      modifies this
      ensures Valid() && dynamic == PLAIN
      ensures talk.Complete? && View() == old(View()).(request := Some(talk.request), frozen := true, held := rest)
    {
      hide CString;
      request := Some(Request(CString(hostname[..]), port));
      dynamic := PLAIN;
      socketFrozen := true;
      if rest != [] {
        buffer := rest;
      }
    }

    /** Hand data to the channel if it is there; `backlog` says whether sshfwd_write asks for a pause. */
    method PassOn(data: bytes, backlog: bool)
      requires Valid()
      modifies this`channelOut, this`throttled, this`socketFrozen
      ensures Valid() && View() == Forward(old(View()), data, backlog)
    {
      if ready {
        channelOut := channelOut + data;
        if backlog {
          throttled := true;
          socketFrozen := true;
        }
      }
    }

    /** pfd_receive. `grant` says whether new_sock_channel succeeds. */
    method Receive(data: bytes, grant: bool, backlog: bool)
      requires Valid() && !socketClosed
      modifies this, hostname
      ensures Valid() && View() == SocksServer.Receive(old(View()), data, grant, backlog)
    {
      hide Converse, CString, FirstNul, Forward;
      var rest := data;
      if dynamic != PLAIN {
        var next;
        next, rest := Exchange(data);
        if next != DoConnect {
          return;
        }
        if !grant {
          socketClosed := true;
          return;
        }
        Connect(rest);
      }
      PassOn(rest, backlog);
    }

    /** pfd_confirm. */
    method Confirm()
      requires Valid() && !socketClosed
      modifies this
      ensures Valid() && View() == SocksServer.Confirm(old(View()))
    {
      ready := true;
      socketFrozen := false;
      channelOut := channelOut + buffer;
      buffer := [];
    }

    /** pfd_unthrottle. */
    method Unthrottle()
      requires Valid() && !socketClosed
      modifies this
      ensures Valid() && View() == SocksServer.Unthrottle(old(View()))
    {
      throttled := false;
      socketFrozen := throttled || throttleOverride;
    }

    /** pfd_override_throttle. */
    method OverrideThrottle(enable: bool)
      requires Valid() && !socketClosed
      modifies this
      ensures Valid() && View() == SocksServer.OverrideThrottle(old(View()), enable)
    {
      throttleOverride := enable;
      socketFrozen := throttled || throttleOverride;
    }

    /** pfd_send, for a channel the SSH server has confirmed. */
    method Send(data: bytes)
      requires Valid() && !socketClosed && talk.Complete?
      modifies this
      ensures Valid() && View() == SocksServer.Send(old(View()), data)
    {
      socketOut := socketOut + data;
      sent := sent + data;
    }
  }

  /** The name copied down without its NUL, and the NUL written after it. */
  lemma StringEnds(buffer: bytes, s: bytes)
    requires |s| < |buffer| && s == buffer[..|s|] && buffer[|s|] == 0
    ensures CString(buffer) == CString(s)
  {
    var i := FirstNul(s, 0);
    FirstNulIs(buffer, 0, i);
    assert buffer[..i] == s[..i];
  }

  /** A C string read from a longer buffer ends at the same NUL. */
  lemma StringAt(buffer: bytes, s: bytes)
    requires s <= buffer && 0 in s
    ensures CString(buffer) == CString(s)
  {
    var i := FirstNul(s, 0);
    assert forall k :: 0 <= k < i ==> buffer[k] == s[k];
    FirstNulIs(buffer, 0, i);
    assert buffer[..i] == s[..i];
  }
}
