/**
  The DHCP client as the program runs it: one object updated in place, its loops over the clock,
  the options of a message and the bytes of a message it builds.
*/
module DhcpClient {
  import opened Words
  import opened Common
  import opened Checksum
  import opened Packets
  import opened Dhcp
  import Runs = DhcpRuns

  /** walk */
  method WalkArea(m: seq<Byte>, start: nat, end: nat, f: Found) returns (r: Found)
    requires end <= |m| <= SOCK_BUF
    ensures r == Walk(m, start, end, f)
  {
    hide Store;
    r := f;
    var o := start;
    while o < end
      invariant Walk(m, o, end, r) == Walk(m, start, end, f)
      decreases end - o
    {
      var code := m[o];
      o := o + 1;
      if code == OPT_END {
        break;
      }
      if code == 0 {
        continue;
      }
      if o >= end {
        break;
      }
      var n := m[o];
      o := o + 1;
      if o + n > end {
        break;
      }
      r := Store(r, code, m[o..o + n]);
      o := o + n;
    }
  }

  /** build: the message of 300 bytes at the front of the buffer. */
  method BuildMessage(msg: array<Byte>, c: Client, ip: Addr, mac: Mac, kind: Byte)
    requires msg.Length >= MIN_LEN
    modifies msg
    ensures msg[..MIN_LEN] == Message(c, ip, mac, kind)
  {
    for i := 0 to MIN_LEN
      invariant forall k :: 0 <= k < i ==> msg[k] == 0
    {
      msg[i] := 0;
    }
    assert msg[..MIN_LEN] == Zeros(MIN_LEN);
    PutBootp(msg, c, ip, mac);
    PutOptions(msg, c, kind);
    hide BootpHeader, OptsBytes;
    OurOptionsLength(c, kind);
    assert msg[..MIN_LEN] == msg[..OPTIONS_AT] + msg[OPTIONS_AT..MIN_LEN];
    ghost var b := OptsBytes(OurOptions(c, kind));
    Appended(BootpHeader(c, ip, mac), b, MIN_LEN - OPTIONS_AT - 1 - |b|);
  }

  lemma Appended(h: seq<Byte>, b: seq<Byte>, n: nat)
    ensures h + (b + [OPT_END] + Zeros(n)) == h + b + [OPT_END] + Zeros(n)
  {
  }

  /** The fixed part over zeros. */
  method PutBootp(msg: array<Byte>, c: Client, ip: Addr, mac: Mac)
    requires msg.Length >= MIN_LEN && msg[..MIN_LEN] == Zeros(MIN_LEN)
    modifies msg
    ensures msg[..OPTIONS_AT] == BootpHeader(c, ip, mac)
    ensures msg[OPTIONS_AT..MIN_LEN] == Zeros(MIN_LEN - OPTIONS_AT)
  {
    var h := BootpHeader(c, ip, mac);
    hide BootpHeader;
    PutBytes(msg, 0, h);
    assert forall k :: OPTIONS_AT <= k < MIN_LEN ==> msg[k] == 0;
  }

  lemma ZerosEnd(n: nat, d: nat)
    requires d <= n
    ensures Zeros(n)[d..] == Zeros(n - d)
  {
  }

  /** The options over zeros. */
  method PutOptions(msg: array<Byte>, c: Client, kind: Byte)
    requires msg.Length >= MIN_LEN && msg[OPTIONS_AT..MIN_LEN] == Zeros(MIN_LEN - OPTIONS_AT)
    modifies msg
    ensures msg[..OPTIONS_AT] == old(msg[..OPTIONS_AT])
    ensures var b := OptsBytes(OurOptions(c, kind));
            |b| <= 21 && msg[OPTIONS_AT..MIN_LEN] == b + [OPT_END] + Zeros(MIN_LEN - OPTIONS_AT - 1 - |b|)
  {
    OurOptionsLength(c, kind);
    var b := OptsBytes(OurOptions(c, kind)) + [OPT_END];
    hide OptsBytes, OurOptions;
    ghost var z := msg[OPTIONS_AT..MIN_LEN];
    PutBytes(msg, OPTIONS_AT, b);
    var at := OPTIONS_AT + |b|;
    assert msg[at..MIN_LEN] == z[|b|..];
    ZerosEnd(MIN_LEN - OPTIONS_AT, |b|);
    assert msg[OPTIONS_AT..MIN_LEN] == msg[OPTIONS_AT..at] + msg[at..MIN_LEN];
  }

  class Machine {
    const mac: Mac
    const msg: array<Byte>
    var c: Client
    var host: Host
    /** Everything the link has accepted. */
    var sent: seq<Sent>

    ghost predicate Valid()
      reads this
    {
      msg.Length >= SOCK_BUF && Runs.Honest(c, host)
    }

    constructor (mac: Mac, host: Host)
      ensures Valid() && fresh(msg) && c == INITIAL && this.host == host && sent == []
    {
      this.mac, this.host := mac, host;
      msg := new Byte[1518];
      c, sent := INITIAL, [];
    }

    /** The object is as a step of module Dhcp says. */
    twostate predicate Performed(s: Step)
      reads this
    {
      c == s.c && host == s.host && sent == old(sent) + s.sent
    }

    /** clock_tick */
    method ClockTick(now: U16)
      requires ClockOk(c.clock)
      modifies this`c
      ensures c == old(c).(clock := TickTo(old(c).clock, now))
    {
      var k := c.clock;
      var delta: U16 := Wrap16(now - k.last);
      ghost var total := Elapsed(k) + delta;
      ghost var minutes: nat := k.age;
      k := k.(last := now);
      while delta >= 50
        invariant c == old(c) && ClockOk(k) && k.last == now && k.age == Wrap16(minutes)
        invariant minutes * 3000 + k.sec * 50 + k.acc + delta == total
        decreases delta
      {
        delta := delta - 50;
        k, minutes := NextSecond(k, minutes);
      }
      if k.acc + delta >= 50 {
        k := k.(acc := k.acc + delta - 50);
        k, minutes := NextSecond(k, minutes);
      } else {
        k := k.(acc := k.acc + delta);
      }
      Digits(minutes, k.sec, k.acc, total);
      c := c.(clock := k);
    }

    /** ++sec; a full minute moves on. */
    static method NextSecond(k: Clock, ghost minutes: nat) returns (r: Clock, ghost m: nat)
      requires ClockOk(k) && k.age == Wrap16(minutes)
      ensures ClockOk(r) && r.last == k.last && r.acc == k.acc && r.age == Wrap16(m)
      ensures m * 60 + r.sec == minutes * 60 + k.sec + 1
    {
      if k.sec + 1 >= 60 {
        r := k.(sec := 0, age := Wrap16(k.age + 1));
        m := minutes + 1;
      } else {
        r := k.(sec := k.sec + 1);
        m := minutes;
      }
    }

    static lemma Digits(m: nat, s: nat, a: nat, x: nat)
      requires x == m * 3000 + s * 50 + a && s < 60 && a < 50
      ensures x % 50 == a && x / 50 % 60 == s && x / 3000 == m
    {
      assert x / 50 == m * 60 + s;
    }

    /** parse */
    method ReadMessage(m: seq<Byte>) returns (x: Parsed)
      requires |m| <= SOCK_BUF
      ensures x == Parse(c, mac, m)
    {
      if |m| < OPTIONS_AT || m[0] != 2 || m[4..8] != c.xid || m[28..34] != mac || m[BOOTP_LEN..OPTIONS_AT] != COOKIE {
        return Parsed(c.params, 0, ZERO);
      }
      hide Walk;
      var f := WalkArea(m, OPTIONS_AT, |m|, Found(c.params, 0, 0));
      if f.overload % 2 == 1 {
        f := WalkArea(m, OFF_FILE, BOOTP_LEN, f);
      }
      if f.overload / 2 % 2 == 1 {
        f := WalkArea(m, OFF_SNAME, OFF_FILE, f);
      }
      x := Parsed(f.p, f.kind, m[16..20]);
    }

    /** transmit */
    method Send(kind: Byte, now: U16, w: World)
      requires msg.Length >= SOCK_BUF && w.mac == mac
      modifies this`c, this`sent, msg
      ensures Performed(old(Transmit(c, host, kind, now, w)))
    {
      hide Message;
      BuildMessage(msg, c, host.ip, mac, kind);
      var dst := if c.state == Bound && c.phase == Renewing then c.params.serverId else BROADCAST;
      if w.answer == Accepted {
        sent := sent + [Sent(dst, msg[..MIN_LEN])];
      }
      c := c.(pending := w.answer == Pending, sentAt := now);
      if w.answer != Pending {
        c := c.(tries := (c.tries as int + 1) % 256);
      }
    }

    /** mn_dhcp_start */
    method Begin(now: U16, w: World)
      requires msg.Length >= SOCK_BUF && w.mac == mac
      modifies this, msg
      ensures Valid() && Performed(Start(now, w))
    {
      Runs.StartHonest(now, w);
      hide Transmit, Runs.Honest;
      host := UNCONFIGURED;
      c := Fresh(now, w);
      Send(MSG_DISCOVER, now, w);
    }

    /** lost */
    method Lose(now: U16, w: World)
      requires msg.Length >= SOCK_BUF && w.mac == mac
      modifies this, msg
      ensures Performed(old(Lost(c, now, w)))
    {
      hide Transmit;
      host := UNCONFIGURED;
      c := Open(Dropped(c), w);
      Send(MSG_DISCOVER, now, w);
    }

    /** What is due while bound. */
    method DueBound(now: U16, w: World)
      requires msg.Length >= SOCK_BUF && w.mac == mac
      modifies this, msg
      ensures Performed(old(BoundDue(c, host, now, w)))
    {
      hide Transmit, Lost, Renewed;
      if c.clock.age >= c.terms.lease {
        Lose(now, w);
      } else if c.clock.age >= c.next {
        c := Renewed(c, w);
        Send(MSG_REQUEST, now, w);
      } else if c.pending {
        Send(MSG_REQUEST, now, w);
      }
    }

    /** poll_bound */
    method PollLease(now: U16, w: World)
      requires msg.Length >= SOCK_BUF && w.mac == mac && ClockOk(c.clock)
      modifies this, msg
      ensures Performed(old(PollBound(c, host, now, w)))
    {
      hide Parse, Lost, BoundDue, Dhcp.Granted, TickTo, ClockOk;
      ParseLate(c, w.mac, now);
      ClockTick(now);
      if c.terms.t1 == 0 {
        return;
      }
      if c.sock < 4 && w.mail.Some? {
        var x := ReadMessage(w.mail.value);
        c := c.(params := x.p);
        if x.kind == MSG_ACK {
          c := Dhcp.Granted(c.(sock := NO_SOCKET), now);
          return;
        }
        if x.kind == MSG_NAK {
          Lose(now, w);
          return;
        }
      }
      DueBound(now, w);
    }

    /** A message is read the same before and after the clock has ticked. */
    static lemma ParseLate(c: Client, mac: Mac, now: U16)
      ensures forall m :: Parse(c.(clock := TickTo(c.clock, now)), mac, m) == Parse(c, mac, m)
    {
      hide WalkAll, TickTo;
    }

    /** What is due while acquiring. */
    method DueAcquire(now: U16, w: World)
      requires msg.Length >= SOCK_BUF && w.mac == mac
      modifies this, msg
      ensures Performed(old(AcquireDue(c, host, now, w)))
    {
      hide Transmit;
      if c.pending {
        Send(if c.state == Selecting then MSG_DISCOVER else MSG_REQUEST, now, w);
      } else if Wrap16(now - c.sentAt) >= RETRY_TICKS {
        if c.tries >= MAX_TRIES {
          c := c.(state := GivenUp, sock := NO_SOCKET);
        } else {
          Send(if c.state == Selecting then MSG_DISCOVER else MSG_REQUEST, now, w);
        }
      }
    }

    method PollAcquire(now: U16, w: World)
      requires msg.Length >= SOCK_BUF && w.mac == mac
      modifies this, msg
      ensures Performed(old(Acquire(c, host, now, w)))
    {
      hide Parse, Transmit, Dhcp.Granted, AcquireDue;
      if c.sock < 4 && w.mail.Some? {
        var x := ReadMessage(w.mail.value);
        c := c.(params := x.p);
        if c.state == Selecting && x.kind == MSG_OFFER {
          c := c.(offered := x.yiaddr, state := Requesting, tries := 0);
          Send(MSG_REQUEST, now, w);
          return;
        }
        if c.state == Requesting && x.kind == MSG_ACK {
          host := Host(x.yiaddr, x.p.mask, x.p.gw);
          c := Dhcp.Granted(c.(sock := NO_SOCKET, state := Bound), now);
          return;
        }
        if c.state == Requesting && x.kind == MSG_NAK {
          c := c.(state := Selecting, tries := 0);
          Send(MSG_DISCOVER, now, w);
          return;
        }
      }
      DueAcquire(now, w);
    }

    /** mn_dhcp_poll */
    method Run(now: U16, w: World) returns (s: State)
      requires Valid() && w.mac == mac
      modifies this, msg
      ensures Valid() && s == c.state && Performed(old(Poll(c, host, now, w)))
    {
      Runs.PollHonest(c, host, now, w);
      ClockGood(c, host);
      hide PollBound, Acquire, Runs.Honest;
      match c.state {
        case Idle | GivenUp =>
        case Bound => PollLease(now, w);
        case _ => PollAcquire(now, w);
      }
      s := c.state;
    }

    static lemma ClockGood(c: Client, host: Host)
      requires Runs.Honest(c, host)
      ensures ClockOk(c.clock)
    {
    }
  }
}
