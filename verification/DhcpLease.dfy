/**
  Which leases end.  The client counts down a lease of 2 minutes up to 45 days; any other lease it
  holds for ever, also one of a single minute.
*/
module DhcpLease {
  import opened Words
  import opened Common
  import opened Checksum
  import opened Dhcp
  import opened DhcpRuns

  predicate AllPolls(es: seq<Event>) { forall i :: 0 <= i < |es| ==> es[i].EPoll? }

  /** Still bound to the address. */
  predicate Holds(r: Step, ip: Addr) { r.c.state == Bound && r.host.ip == ip }

  /** A lease without terms survives every sequence of polls, whatever arrives: the mailbox is not even
      looked at, and nothing is sent. */
  lemma {:induction false} HeldForEver(c: Client, host: Host, es: seq<Event>)
    requires c.state == Bound && c.terms.t1 == 0 && AllPolls(es)
    ensures var r := RunFrom(c, host, es);
            && r.c == c.(clock := r.c.clock) && r.host == host && r.sent == []
  {
    hide TickTo;
    if es != [] {
      HeldForEver(c, host, es[..|es| - 1]);
    }
  }

  /** A poll that finds no mail, on a link that refuses everything. */
  function Deaf(now: U16, mac: Mac): Event { EPoll(now, World(mac, Refused, NO_SOCKET, None)) }

  /** Polls 20 minutes apart, with nobody answering. */
  function Deafness(now: U16, mac: Mac, n: nat): (es: seq<Event>)
    ensures |es| == n && AllPolls(es)
  {
    if n == 0 then [] else Deafness(now, mac, n - 1) + [Deaf(Wrap16(now + 60000 * n), mac)]
  }

  lemma DeafStep(c: Client, host: Host, now: U16, mac: Mac)
    requires Honest(c, host) && (c.state == Bound ==> Expires(c) && Wrap16(now - c.clock.last) == 60000)
    ensures var r := Do(c, host, Deaf(now, mac));
            && Honest(r.c, r.host)
            && (c.state != Bound ==> r.c.state != Bound)
            && (r.c.state == Bound ==> Expires(r.c) && r.c.clock.last == now && Elapsed(r.c.clock) == Elapsed(c.clock) + 60000)
  {
    hide TickTo, Wrap16, BoundDue, AcquireDue;
    var w := World(mac, Refused, NO_SOCKET, None);
    PollHonest(c, host, now, w);
    if c.state == Bound {
      PollBoundHonest(c, host, now, w);
      GrantTerms(c, host, now, w);
      ClockHonest(c, host);
      TickExact(c.clock, now);
      TickLast(c.clock, now);
    } else if c.state == Selecting || c.state == Requesting {
      DueState(c, host, now, w);
    }
    hide Honest;
  }

  /** As long as it is bound the client counts every 20 minutes. */
  lemma {:induction false} Fading(c: Client, host: Host, mac: Mac, n: nat)
    requires Honest(c, host) && Expires(c)
    ensures var r := RunFrom(c, host, Deafness(c.clock.last, mac, n));
            && Honest(r.c, r.host)
            && (r.c.state == Bound ==> Expires(r.c) && Elapsed(r.c.clock) == Elapsed(c.clock) + 60000 * n
                                       && r.c.clock.last == Wrap16(c.clock.last + 60000 * n))
  {
    hide Do, Honest, Expires, Elapsed, Wrap16;
    if n == 0 {
      SmallWrap16(c.clock.last);
    } else {
      Fading(c, host, mac, n - 1);
      var es := Deafness(c.clock.last, mac, n - 1);
      var p := RunFrom(c, host, es);
      TwentyMinutes(c.clock.last, n - 1);
      DeafStep(p.c, p.host, Wrap16(c.clock.last + 60000 * n), mac);
      assert Deafness(c.clock.last, mac, n)[..n - 1] == es;
    }
  }

  /** A lease with terms does not survive 45 days of silence. */
  lemma RunsOut(c: Client, host: Host, mac: Mac)
    requires Honest(c, host) && Expires(c)
    ensures RunFrom(c, host, Deafness(c.clock.last, mac, 3240)).c.state != Bound
  {
    hide RunFrom, Deafness, Honest;
    Fading(c, host, mac, 3240);
    var r := RunFrom(c, host, Deafness(c.clock.last, mac, 3240));
    ClockHonest(r.c, r.host);
  }

  /** Which leases are held for ever: after the ACK that grants or renews a lease of L seconds the client
      stays bound to its address under every sequence of polls unless 120 <= L < 3888000. */
  lemma ForEverIff(c: Client, host: Host, now: U16, w: World)
    requires Honest(c, host) && Poll(c, host, now, w).granted
    ensures Mail(c, w).Some?
    ensures var r := Poll(c, host, now, w);
            var x := Parse(c, w.mac, Mail(c, w).value);
            && x.kind == MSG_ACK && Holds(r, r.host.ip)
            && ((forall es :: AllPolls(es) ==> Holds(RunFrom(r.c, r.host, es), r.host.ip))
                <==> !(120 <= x.p.leaseS < LEASE_FOREVER_S))
  {
    hide Poll, Parse, Honest, RunFrom;
    var r := Poll(c, host, now, w);
    PollHonest(c, host, now, w);
    GrantTerms(c, host, now, w);
    TermsGood(r.c.params.leaseS);
    hide TermsOf;
    if 120 <= r.c.params.leaseS < LEASE_FOREVER_S {
      RunsOut(r.c, r.host, w.mac);
      var es := Deafness(r.c.clock.last, w.mac, 3240);
      assert AllPolls(es) && !Holds(RunFrom(r.c, r.host, es), r.host.ip);
    } else {
      forall es | AllPolls(es)
        ensures Holds(RunFrom(r.c, r.host, es), r.host.ip)
      {
        HeldForEver(r.c, r.host, es);
      }
    }
  }

  lemma TwentyMinutes(last: U16, n: nat)
    ensures Wrap16(Wrap16(last + 60000 * (n + 1)) - Wrap16(last + 60000 * n)) == 60000
  {
  }

  // ----- a server's ACK -----

  /** The header of a reply to the transaction `xid` that offers `ip`. */
  function ReplyHeader(xid: Addr, ip: Addr, mac: Mac): (h: seq<Byte>)
    ensures |h| == OPTIONS_AT
  {
    [2, 1, 6, 0] + xid + Zeros(8) + ip + Zeros(8) + mac + Zeros(202) + COOKIE
  }

  function AckBytes(seconds: U32): (b: seq<Byte>)
    ensures |b| == 9
  {
    [OPT_MSG_TYPE, 1, MSG_ACK] + ([OPT_LEASE, 4] + Put32(seconds))
  }

  /** An ACK for `ip` and `seconds`. */
  function Ack(xid: Addr, ip: Addr, mac: Mac, seconds: U32): Datagram {
    ReplyHeader(xid, ip, mac) + AckBytes(seconds) + [OPT_END]
  }

  lemma AckReads(c: Client, ip: Addr, mac: Mac, seconds: U32)
    ensures Parse(c, mac, Ack(c.xid, ip, mac, seconds)) == Parsed(c.params.(leaseS := seconds), MSG_ACK, ip)
  {
    var m, h := Ack(c.xid, ip, mac, seconds), ReplyHeader(c.xid, ip, mac);
    assert m[..OPTIONS_AT] == h && m[240..249] == AckBytes(seconds) && m[249] == OPT_END;
    assert h[0] == 2 && h[4..8] == c.xid && h[16..20] == ip && h[28..34] == mac && h[236..240] == COOKIE;
    assert m[4..8] == m[..OPTIONS_AT][4..8] && m[16..20] == m[..OPTIONS_AT][16..20];
    assert m[28..34] == m[..OPTIONS_AT][28..34] && m[236..240] == m[..OPTIONS_AT][236..240];
    AckOptions(m, c.params, seconds);
    hide Ack, AckBytes, ReplyHeader, WalkAll;
  }

  lemma AckOptions(m: seq<Byte>, p: Params, seconds: U32)
    requires |m| == 250 && m[240..249] == AckBytes(seconds) && m[249] == OPT_END
    ensures WalkAll(m, p) == Found(p.(leaseS := seconds), MSG_ACK, 0)
  {
    hide Walk, StoreAll, OptsBytes, AckBytes, Put32;
    AckStored(p, seconds);
    WalkStores(m, OPTIONS_AT, 250, [Opt(OPT_MSG_TYPE, [MSG_ACK]), Opt(OPT_LEASE, Put32(seconds))], Found(p, 0, 0));
  }

  lemma AckStored(p: Params, seconds: U32)
    ensures StoreAll(Found(p, 0, 0), [Opt(OPT_MSG_TYPE, [MSG_ACK]), Opt(OPT_LEASE, Put32(seconds))])
            == Found(p.(leaseS := seconds), MSG_ACK, 0)
    ensures OptsBytes([Opt(OPT_MSG_TYPE, [MSG_ACK]), Opt(OPT_LEASE, Put32(seconds))])
            == AckBytes(seconds)
  {
    var a, b := Opt(OPT_MSG_TYPE, [MSG_ACK]), Opt(OPT_LEASE, Put32(seconds));
    OptsCons(b, []);
    OptsCons(a, [b]);
    assert [b] + [] == [b] && [a] + [b] == [a, b];
    assert Put32(seconds)[..4] == Put32(seconds);
    hide OptsBytes, StoreAll, Put32;
  }

  /** Seen from the server: its ACK of `seconds` to a requesting client configures the host, for ever
      unless it is for 2 minutes up to 45 days. */
  lemma ServerDecides(c: Client, host: Host, now: U16, w: World, ip: Addr, seconds: U32)
    requires Honest(c, host) && c.state == Requesting && c.sock < 4
    requires w.mail == Some(Ack(c.xid, ip, w.mac, seconds))
    ensures var r := Poll(c, host, now, w);
            && Holds(r, ip)
            && ((forall es :: AllPolls(es) ==> Holds(RunFrom(r.c, r.host, es), ip))
                <==> !(120 <= seconds < LEASE_FOREVER_S))
  {
    AckReads(c, ip, w.mac, seconds);
    hide Ack, Parse, Honest, RunFrom, Dhcp.Granted, AcquireDue;
    ForEverIff(c, host, now, w);
  }

  /** A lease of one minute is still held after any polls. */
  lemma OneMinute(c: Client, host: Host, now: U16, w: World, ip: Addr, es: seq<Event>)
    requires Honest(c, host) && c.state == Requesting && c.sock < 4
    requires w.mail == Some(Ack(c.xid, ip, w.mac, 60)) && AllPolls(es)
    ensures var r := Poll(c, host, now, w); Holds(RunFrom(r.c, r.host, es), ip)
  {
    hide *;
    ServerDecides(c, host, now, w, ip, 60);
  }
}
