/**
  What holds of the DHCP client over whole runs: a lease with terms is always in the phase its age
  calls for and is given up in time, and the minute clock counts frames exactly.  Which leases have
  no terms and are held for ever is the subject of DhcpLease.
*/
module DhcpRuns {
  import opened Words
  import opened Common
  import opened Checksum
  import opened Packets
  import opened Dhcp

  /** Bound, with a lease that has terms. */
  predicate Expires(c: Client) { c.state == Bound && c.terms.t1 > 0 }

  /** RFC 2131, section 4.4.5: in force up to T1, renewing up to T2, rebinding up to expiry. */
  function PhaseAt(age: nat, t: Terms): Phase {
    if age < t.t1 then InForce else if age < t.t2 then Renewing else Rebinding
  }

  predicate GoodTerms(t: Terms) { 1 <= t.t1 <= t.t2 <= t.lease < 64800 }

  predicate LeaseInv(c: Client) {
    && ClockOk(c.clock)
    && (c.state == Bound && c.terms.t1 == 0 ==> c.phase == InForce)
    && (Expires(c) ==>
          && GoodTerms(c.terms) && c.clock.age < c.terms.lease
          && c.phase == PhaseAt(c.clock.age, c.terms)
          && c.clock.age < c.next
          && (c.phase == InForce ==> c.next == c.terms.t1)
          && (c.phase == Renewing ==> c.next <= c.terms.t2))
  }

  /** Without a lease the host has no address. */
  predicate AddressInv(c: Client, host: Host) {
    c.state == Selecting || c.state == Requesting || c.state == GivenUp ==> host.ip == ZERO
  }

  predicate Honest(c: Client, host: Host) { LeaseInv(c) && AddressInv(c, host) }

  /** The clock advances by the ticks since the last call; no minute is lost to the 16-bit count while
      a lease that expires is held. */
  lemma TickExact(k: Clock, now: U16)
    requires ClockOk(k)
    ensures ClockOk(TickTo(k, now))
    ensures k.age < 64800 ==>
              Elapsed(TickTo(k, now)) == Elapsed(k) + Wrap16(now - k.last) && TickTo(k, now).age >= k.age
  {
    var x := Elapsed(k) + Wrap16(now - k.last);
    Digits(x);
    hide Wrap16;
    if k.age < 64800 {
      SmallWrap16(x / 3000);
    }
  }

  lemma Digits(x: nat)
    ensures x == x / 3000 * 3000 + x / 50 % 60 * 50 + x % 50
  {
    assert x / 50 / 60 == x / 3000;
  }

  /** A lease of 2 minutes up to 45 days is renewed at half its whole minutes and rebound at seven
      eighths of them, rounded up; any other is never renewed (section 4.4.5 of RFC 2131). */
  lemma TermsGood(leaseS: U32)
    ensures var t := TermsOf(leaseS);
            if 120 <= leaseS < LEASE_FOREVER_S then
              && GoodTerms(t) && t.lease * 60 <= leaseS < (t.lease + 1) * 60
              && 2 * t.t1 <= t.lease < 2 * (t.t1 + 1)
              && 8 * (t.t2 - 1) < 7 * t.lease <= 8 * t.t2
            else t == Terms(0, 0, 0)
  {
  }

  lemma GrantedInv(c: Client, now: U16)
    ensures LeaseInv(Granted(c, now))
  {
    TermsGood(c.params.leaseS);
    hide TermsOf;
  }

  lemma TransmitKeeps(c: Client, host: Host, kind: Byte, now: U16, w: World)
    ensures var r := Transmit(c, host, kind, now, w);
            && r.host == host && !r.granted
            && r.c == c.(pending := r.c.pending, sentAt := r.c.sentAt, tries := r.c.tries)
  {
    hide Message;
  }

  lemma LostHonest(c: Client, now: U16, w: World)
    requires ClockOk(c.clock)
    ensures var r := Lost(c, now, w); Honest(r.c, r.host) && r.c.state == Selecting && !r.granted
  {
    TransmitKeeps(Open(Dropped(c), w), UNCONFIGURED, MSG_DISCOVER, now, w);
    hide Transmit;
  }

  /** What is due while bound restores the phase. */
  lemma BoundDueHonest(c: Client, host: Host, now: U16, w: World, before: nat)
    requires Expires(c) && ClockOk(c.clock) && GoodTerms(c.terms) && before <= c.clock.age
    requires before < c.terms.lease && before < c.next && c.phase == PhaseAt(before, c.terms)
    requires (c.phase == InForce ==> c.next == c.terms.t1) && (c.phase == Renewing ==> c.next <= c.terms.t2)
    ensures var r := BoundDue(c, host, now, w);
            Honest(r.c, r.host) && !r.granted && (r.c.state == Bound ==> r.c.clock == c.clock)
  {
    LostHonest(c, now, w);
    TransmitKeeps(c, host, MSG_REQUEST, now, w);
    TransmitKeeps(Renewed(c, w), host, MSG_REQUEST, now, w);
    hide Transmit, Lost;
    if c.clock.age < c.terms.lease {
      SmallWrap16(c.clock.age + 1);
    }
    hide Wrap16;
  }

  /** What a poll while bound keeps: `ticked` is the clock after the ticks since the last call. */
  ghost predicate BoundKept(c: Client, r: Step, ticked: Clock, now: U16) {
    && Honest(r.c, r.host)
    && (r.granted ==> r.c.clock == Clock(now, 0, 0, 0) && r.c.state == Bound)
    && (!r.granted && r.c.state == Bound ==> r.c.clock == ticked && Expires(c) == Expires(r.c))
  }

  /** The state PollBound leaves before anything is due. */
  lemma PollBoundHonest(c: Client, host: Host, now: U16, w: World)
    requires Honest(c, host) && c.state == Bound
    ensures BoundKept(c, PollBound(c, host, now, w), TickTo(c.clock, now), now)
  {
    if c.terms.t1 > 0 {
      hide TickTo, Parse, Lost, BoundDue, Granted, PhaseAt, BoundKept;
      BoundDueKept(c, c.params, host, now, w);
      if Mail(c, w).Some? {
        MailKept(c, Parse(c, w.mac, Mail(c, w).value).p, host, now, w);
        BoundDueKept(c, Parse(c, w.mac, Mail(c, w).value).p, host, now, w);
        assert c.(params := c.params) == c;
      }
    } else {
      TickExact(c.clock, now);
      hide TickTo;
    }
  }

  lemma BoundDueKept(c: Client, p: Params, host: Host, now: U16, w: World)
    requires Honest(c, host) && Expires(c)
    ensures var c1 := c.(clock := TickTo(c.clock, now), params := p);
            BoundKept(c, BoundDue(c1, host, now, w), TickTo(c.clock, now), now)
  {
    hide TickTo, BoundDue, PhaseAt;
    var c1 := c.(clock := TickTo(c.clock, now), params := p);
    TickExact(c.clock, now);
    BoundDueHonest(c1, host, now, w, c.clock.age);
    DueTerms(c1, host, now, w);
  }

  lemma MailKept(c: Client, p: Params, host: Host, now: U16, w: World)
    requires Honest(c, host) && c.state == Bound
    ensures var c1 := c.(clock := TickTo(c.clock, now), params := p);
            && BoundKept(c, Step(Granted(c1.(sock := NO_SOCKET), now), host, [], true), TickTo(c.clock, now), now)
            && BoundKept(c, Lost(c1, now, w), TickTo(c.clock, now), now)
  {
    hide TickTo, Lost, Granted, PhaseAt;
    var c1 := c.(clock := TickTo(c.clock, now), params := p);
    TickExact(c.clock, now);
    LostHonest(c1, now, w);
    GrantedInv(c1.(sock := NO_SOCKET), now);
    GrantedClock(c1.(sock := NO_SOCKET), now);
  }

  lemma GrantedClock(c: Client, now: U16)
    ensures var r := Granted(c, now); r.clock == Clock(now, 0, 0, 0) && r.state == c.state
  {
    hide TermsOf;
  }

  lemma DueTerms(c: Client, host: Host, now: U16, w: World)
    requires c.state == Bound
    ensures var r := BoundDue(c, host, now, w); !r.granted && (r.c.state == Bound ==> r.c.terms == c.terms)
  {
    hide Message, Wrap16;
  }

  lemma AcquireDueHonest(c: Client, host: Host, now: U16, w: World)
    requires Honest(c, host) && (c.state == Selecting || c.state == Requesting)
    ensures var r := AcquireDue(c, host, now, w); Honest(r.c, r.host) && !r.granted && r.c.state != Bound
  {
    TransmitKeeps(c, host, KindFor(c.state), now, w);
    hide Transmit;
  }

  lemma AcquireHonest(c: Client, host: Host, now: U16, w: World)
    requires Honest(c, host) && (c.state == Selecting || c.state == Requesting)
    ensures var r := Acquire(c, host, now, w);
            && Honest(r.c, r.host)
            && (r.granted <==> r.c.state == Bound)
            && (r.granted ==> r.c.clock == Clock(now, 0, 0, 0))
  {
    AcquireDueHonest(c, host, now, w);
    if Mail(c, w).Some? {
      var x := Parse(c, w.mac, Mail(c, w).value);
      var c1 := c.(params := x.p);
      hide Parse, Transmit, Granted, AcquireDue;
      AcquireDueHonest(c1, host, now, w);
      TransmitKeeps(c1.(offered := x.yiaddr, state := Requesting, tries := 0), host, MSG_REQUEST, now, w);
      TransmitKeeps(c1.(state := Selecting, tries := 0), host, MSG_DISCOVER, now, w);
      GrantedInv(c1.(sock := NO_SOCKET, state := Bound), now);
      GrantedClock(c1.(sock := NO_SOCKET, state := Bound), now);
    }
    hide AcquireDue;
  }

  /** Every poll keeps both invariants, whatever arrives and whatever the link answers. */
  lemma PollHonest(c: Client, host: Host, now: U16, w: World)
    requires Honest(c, host)
    ensures var r := Poll(c, host, now, w); Honest(r.c, r.host)
  {
    hide PollBound, Acquire;
    if c.state == Bound {
      PollBoundHonest(c, host, now, w);
    } else if c.state == Selecting || c.state == Requesting {
      AcquireHonest(c, host, now, w);
    }
  }

  lemma StartHonest(now: U16, w: World)
    ensures var r := Start(now, w); Honest(r.c, r.host) && r.c.state == Selecting && !r.granted
  {
    TransmitKeeps(Fresh(now, w), UNCONFIGURED, MSG_DISCOVER, now, w);
    hide Transmit;
  }

  // ----- what is sent -----

  /** At most one message, of the kind and to the place that the state afterwards calls for. */
  ghost predicate Fits(r: Step, mac: Mac) {
    && |r.sent| <= 1
    && forall s :: s in r.sent ==> s == Sent(Target(r.c), Message(r.c, r.host.ip, mac, KindFor(r.c.state)))
  }

  lemma TransmitFits(c: Client, host: Host, now: U16, w: World)
    ensures Fits(Transmit(c, host, KindFor(c.state), now, w), w.mac)
  {
    SameMessage(c, now, w, host);
    hide Message;
  }

  lemma SameMessage(c: Client, now: U16, w: World, host: Host)
    ensures var d := Tried(c, now, w.answer);
            && Message(d, host.ip, w.mac, KindFor(d.state)) == Message(c, host.ip, w.mac, KindFor(c.state))
            && Target(d) == Target(c)
  {
    var d := Tried(c, now, w.answer);
    assert BootpHeader(d, host.ip, w.mac) == BootpHeader(c, host.ip, w.mac);
    assert OurOptions(d, KindFor(d.state)) == OurOptions(c, KindFor(c.state));
    hide BootpHeader, OurOptions, OptsBytes;
  }

  lemma BoundDueFits(c: Client, host: Host, now: U16, w: World)
    requires c.state == Bound
    ensures Fits(BoundDue(c, host, now, w), w.mac)
  {
    hide Transmit, Message, Target, Wrap16;
    TransmitFits(Open(Dropped(c), w), UNCONFIGURED, now, w);
    TransmitFits(Renewed(c, w), host, now, w);
    TransmitFits(c, host, now, w);
  }

  lemma PollFits(c: Client, host: Host, now: U16, w: World)
    ensures Fits(Poll(c, host, now, w), w.mac)
  {
    hide Transmit, Message, Target, Parse, TickTo, BoundDue, AcquireDue, Dhcp.Granted;
    var c1 := c.(clock := TickTo(c.clock, now));
    if c.state == Bound {
      BoundDueFits(c1, host, now, w);
      if Mail(c, w).Some? {
        var c2 := c1.(params := Parse(c, w.mac, Mail(c, w).value).p);
        BoundDueFits(c2, host, now, w);
        TransmitFits(Open(Dropped(c2), w), UNCONFIGURED, now, w);
      }
    } else if c.state == Selecting || c.state == Requesting {
      AcquireDueFits(c, host, now, w);
      if Mail(c, w).Some? {
        var x := Parse(c, w.mac, Mail(c, w).value);
        var c2 := c.(params := x.p);
        AcquireDueFits(c2, host, now, w);
        TransmitFits(c2.(offered := x.yiaddr, state := Requesting, tries := 0), host, now, w);
        TransmitFits(c2.(state := Selecting, tries := 0), host, now, w);
      }
    }
  }

  lemma AcquireDueFits(c: Client, host: Host, now: U16, w: World)
    requires c.state == Selecting || c.state == Requesting
    ensures Fits(AcquireDue(c, host, now, w), w.mac)
  {
    TransmitFits(c, host, now, w);
    hide Transmit, Message, Target;
  }

  /** Every message that goes out reads as a DISCOVER while selecting and as a REQUEST otherwise; it
      carries our address exactly while bound; and it goes to the server exactly while renewing, else
      to everyone (section 4.3.2 of RFC 2131). */
  lemma SaysItsState(c: Client, host: Host, e: Event, s: Sent)
    requires s in Do(c, host, e).sent
    ensures var r := Do(c, host, e);
            && |s.message| == MIN_LEN
            && Walk(s.message, OPTIONS_AT, MIN_LEN, Found(NO_PARAMS, 0, 0)).kind
               == (if r.c.state == Selecting then MSG_DISCOVER else MSG_REQUEST)
            && s.message[12..16] == (if r.c.state == Bound then r.host.ip else ZERO)
            && s.dst == (if r.c.state == Bound && r.c.phase == Renewing then r.c.params.serverId else BROADCAST)
  {
    hide Poll, Transmit, Message, Walk;
    var r := Do(c, host, e);
    match e {
      case EStart(now, w) =>
        TransmitFits(Fresh(now, w), UNCONFIGURED, now, w);
        MessageReads(r.c, r.host.ip, w.mac, KindFor(r.c.state));
      case EPoll(now, w) =>
        PollFits(c, host, now, w);
        MessageReads(r.c, r.host.ip, w.mac, KindFor(r.c.state));
    }
  }

  // ----- runs -----

  datatype Event = EStart(now: U16, w: World) | EPoll(now: U16, w: World)

  function Do(c: Client, host: Host, e: Event): Step {
    match e
    case EStart(now, w) => Start(now, w)
    case EPoll(now, w) => Poll(c, host, now, w)
  }

  function RunFrom(c: Client, host: Host, es: seq<Event>): Step {
    if es == [] then Step(c, host, [], false)
    else
      var p := RunFrom(c, host, es[..|es| - 1]);
      var r := Do(p.c, p.host, es[|es| - 1]);
      Step(r.c, r.host, p.sent + r.sent, r.granted)
  }

  /** The client after a run from mn_api_init, on a host with any address. */
  function After(host: Host, es: seq<Event>): Step { RunFrom(INITIAL, host, es) }

  /** After every run, whatever the server, the link and the clock do: while a lease that expires is
      held the phase is the one its age calls for, the age is short of the expiry, and minutes are
      left; and a client that is acquiring or has given up has no address. */
  lemma {:induction false} AlwaysHonest(host: Host, es: seq<Event>)
    ensures var r := After(host, es);
            && Honest(r.c, r.host)
            && (Expires(r.c) ==> GoodTerms(r.c.terms) && r.c.phase == PhaseAt(r.c.clock.age, r.c.terms)
                                 && 0 < LeaseLeft(r.c) <= r.c.terms.lease)
            && (r.c.state != Idle && r.c.state != Bound ==> r.host.ip == ZERO)
  {
    hide Do, PhaseAt;
    if es != [] {
      AlwaysHonest(host, es[..|es| - 1]);
      var p, e := After(host, es[..|es| - 1]), es[|es| - 1];
      DoHonest(p.c, p.host, e);
    }
  }

  lemma DoHonest(c: Client, host: Host, e: Event)
    requires Honest(c, host)
    ensures var r := Do(c, host, e); Honest(r.c, r.host)
  {
    hide Poll, Start;
    match e
    case EStart(now, w) => StartHonest(now, w);
    case EPoll(now, w) => PollHonest(c, host, now, w);
  }

  // ----- real time -----

  /** The 16-bit tick of src/abi/api.c, kept from the 8-bit frame counter. */
  datatype Watch = Watch(ticks: U16, frame: Byte)

  function ReadTicks(k: Watch, f: Byte): Watch {
    Watch(Wrap16(k.ticks + (f as int - k.frame as int) % 256), f)
  }

  /** The tick counts frames exactly as long as it is read at least every 256 frames. */
  lemma TicksExact(k: Watch, origin: nat, before: nat, at: nat)
    requires origin <= before <= at < before + 256
    requires k == Watch(Wrap16(before - origin), before % 256)
    ensures ReadTicks(k, at % 256) == Watch(Wrap16(at - origin), at % 256)
  {
    FrameDiff(before, at);
    WrapSum(before - origin, at - before);
  }

  lemma FrameDiff(before: nat, at: nat)
    requires before <= at < before + 256
    ensures (at % 256 - before % 256) % 256 == at - before
  {
  }

  lemma WrapSum(x: nat, n: nat)
    ensures Wrap16(Wrap16(x) + n) == Wrap16(x + n)
  {
  }

  datatype Act = Tick | AStart(w: World) | APoll(w: World)

  datatype Timed = Timed(act: Act, at: nat)

  /** Client, host and tick; the frames of the last tick, of the last DHCP call and of the last
      grant, and the seconds that grant was for. */
  datatype Api = Api(c: Client, host: Host, watch: Watch, at: nat, called: nat, granted: nat, seconds: U32)

  /** The API after mn_api_init at frame `origin`. */
  function FirstCall(origin: nat, host: Host): Api {
    Api(INITIAL, host, Watch(0, origin % 256), origin, 0, 0, 0)
  }

  /** One call of the API: every call reads the tick first. */
  function Call(s: Api, e: Timed): Api {
    var watch := ReadTicks(s.watch, e.at % 256);
    match e.act
    case Tick => s.(watch := watch, at := e.at)
    case AStart(w) =>
      var r := Start(watch.ticks, w);
      Api(r.c, r.host, watch, e.at, e.at, s.granted, s.seconds)
    case APoll(w) =>
      var r := Poll(s.c, s.host, watch.ticks, w);
      Api(r.c, r.host, watch, e.at, e.at, if r.granted then e.at else s.granted,
          if r.granted then r.c.params.leaseS else s.seconds)
  }

  function Calls(s: Api, es: seq<Timed>): Api {
    if es == [] then s else Call(Calls(s, es[..|es| - 1]), es[|es| - 1])
  }

  /** The tick is read at least every 256 frames, and a lease that expires is polled at least every 65536. */
  predicate Timely(s: Api, e: Timed) {
    s.at <= e.at < s.at + 256 && (Expires(s.c) ==> e.at < s.called + 0x1_0000)
  }

  predicate AllTimely(s: Api, es: seq<Timed>) {
    es == [] || (AllTimely(s, es[..|es| - 1]) && Timely(Calls(s, es[..|es| - 1]), es[|es| - 1]))
  }

  /** The tick is exact, and the lease clock reads the frames since the grant. */
  predicate Exact(s: Api, origin: nat) {
    && origin <= s.at && s.called <= s.at && s.watch == Watch(Wrap16(s.at - origin), s.at % 256)
    && (s.c.state == Bound ==> origin <= s.called && s.c.clock.last == Wrap16(s.called - origin))
    && (Expires(s.c) ==> s.granted + Elapsed(s.c.clock) == s.called)
    && (s.c.state == Bound ==> s.c.terms == TermsOf(s.seconds))
    && Honest(s.c, s.host)
  }

  lemma Interval(called: nat, at: nat, origin: nat)
    requires origin <= called <= at < called + 0x1_0000
    ensures Wrap16(Wrap16(at - origin) - Wrap16(called - origin)) == at - called
  {
  }

  lemma PollExact(s: Api, origin: nat, w: World, at: nat, watch: Watch)
    requires Exact(s, origin) && s.at <= at && watch == Watch(Wrap16(at - origin), at % 256)
    requires Expires(s.c) ==> at < s.called + 0x1_0000
    ensures var r := Poll(s.c, s.host, watch.ticks, w);
            && Honest(r.c, r.host)
            && (r.c.state == Bound ==> r.c.clock.last == watch.ticks)
            && (Expires(r.c) ==> (if r.granted then at else s.granted) + Elapsed(r.c.clock) == at)
  {
    hide PollBound, Acquire, Wrap16, TickTo;
    var now := watch.ticks;
    if s.c.state == Bound {
      PollBoundHonest(s.c, s.host, now, w);
      ClockHonest(s.c, s.host);
      TickExact(s.c.clock, now);
      TickLast(s.c.clock, now);
      if Expires(s.c) {
        Interval(s.called, at, origin);
      }
    } else if s.c.state == Selecting || s.c.state == Requesting {
      AcquireHonest(s.c, s.host, now, w);
    }
  }

  /** Only an ACK sets the terms, from the seconds known after reading it; while the client stays
      bound nothing else changes them. */
  lemma GrantTerms(c: Client, host: Host, now: U16, w: World)
    ensures var r := Poll(c, host, now, w);
            && (r.granted ==> GrantedBy(c, w, r.c))
            && (!r.granted && r.c.state == Bound ==> c.state == Bound && r.c.terms == c.terms)
  {
    hide Parse, Transmit, TickTo, BoundDue, AcquireDue, TermsOf, Dhcp.Granted;
    var c1 := c.(clock := TickTo(c.clock, now));
    if c.state == Bound {
      DueTerms(c1, host, now, w);
      LostState(c1, now, w);
      if Mail(c, w).Some? {
        var c2 := c1.(params := Parse(c, w.mac, Mail(c, w).value).p);
        DueTerms(c2, host, now, w);
        LostState(c2, now, w);
        TermsSet(c2.(sock := NO_SOCKET), now);
      }
    } else if c.state == Selecting || c.state == Requesting {
      DueState(c, host, now, w);
      if Mail(c, w).Some? {
        var x := Parse(c, w.mac, Mail(c, w).value);
        var c2 := c.(params := x.p);
        DueState(c2, host, now, w);
        TransmitKeeps(c2.(offered := x.yiaddr, state := Requesting, tries := 0), host, MSG_REQUEST, now, w);
        TransmitKeeps(c2.(state := Selecting, tries := 0), host, MSG_DISCOVER, now, w);
        TermsSet(c2.(sock := NO_SOCKET, state := Bound), now);
      }
    }
  }

  /** The datagram in the mailbox is an ACK for us and the terms are those of its lease. */
  ghost predicate GrantedBy(c: Client, w: World, u: Client) {
    && Mail(c, w).Some?
    && var x := Parse(c, w.mac, Mail(c, w).value);
       && x.kind == MSG_ACK && u.state == Bound && u.params == x.p && u.terms == TermsOf(x.p.leaseS)
  }

  lemma TermsSet(c: Client, now: U16)
    ensures var r := Granted(c, now); r.state == c.state && r.params == c.params && r.terms == TermsOf(c.params.leaseS)
  {
    hide TermsOf;
  }

  lemma LostState(c: Client, now: U16, w: World)
    ensures Lost(c, now, w).c.state == Selecting && !Lost(c, now, w).granted
  {
    TransmitKeeps(Open(Dropped(c), w), UNCONFIGURED, MSG_DISCOVER, now, w);
    hide Transmit;
  }

  lemma DueState(c: Client, host: Host, now: U16, w: World)
    requires c.state == Selecting || c.state == Requesting
    ensures AcquireDue(c, host, now, w).c.state != Bound && !AcquireDue(c, host, now, w).granted
  {
    TransmitKeeps(c, host, KindFor(c.state), now, w);
    hide Transmit;
  }

  lemma TickLast(k: Clock, now: U16)
    ensures TickTo(k, now).last == now
  {
    hide Wrap16;
  }

  lemma ClockHonest(c: Client, host: Host)
    requires Honest(c, host)
    ensures ClockOk(c.clock) && (Expires(c) ==> c.clock.age < 64800)
    ensures c.state == Bound && !Expires(c) ==> c.phase == InForce
  {
  }

  lemma CallExact(s: Api, origin: nat, e: Timed)
    requires Exact(s, origin) && Timely(s, e)
    ensures Exact(Call(s, e), origin)
  {
    hide Poll, Start, Honest, Wrap16, ReadTicks, TermsOf;
    TicksExact(s.watch, origin, s.at, e.at);
    var watch := ReadTicks(s.watch, e.at % 256);
    match e.act
    case Tick =>
    case AStart(w) => StartHonest(watch.ticks, w);
    case APoll(w) =>
      PollExact(s, origin, w, e.at, watch);
      GrantTerms(s.c, s.host, watch.ticks, w);
  }

  lemma {:induction false} CallsExact(s: Api, origin: nat, es: seq<Timed>)
    requires Exact(s, origin) && AllTimely(s, es)
    ensures Exact(Calls(s, es), origin)
  {
    hide Exact, Call, Timely;
    if es != [] {
      CallsExact(s, origin, es[..|es| - 1]);
      CallExact(Calls(s, es[..|es| - 1]), origin, es[|es| - 1]);
    }
  }

  /** From mn_api_init at frame `origin`, over every schedule of timely calls, with a lease of 2
      minutes up to 45 days: minutes, seconds and ticks together read exactly the frames from the
      grant to the last DHCP call, 50 to the second; that call came before the lease ran out; and
      the phase is the one those frames call for; and the minutes left are those to the end of the
      lease, a started one counted in full.  Any other lease has no terms at all. */
  lemma LeaseClock(origin: nat, host: Host, es: seq<Timed>)
    requires AllTimely(FirstCall(origin, host), es)
    ensures var s := Calls(FirstCall(origin, host), es);
            s.c.state == Bound ==>
              if 120 <= s.seconds < LEASE_FOREVER_S then
                var f, m := s.called - s.granted, s.seconds / 60;
                && f == Elapsed(s.c.clock) && 0 <= f < 3000 * m && f < 50 * s.seconds
                && s.c.phase == (if f < 3000 * (m / 2) then InForce
                                 else if f < 3000 * (m - m / 8) then Renewing else Rebinding)
                && 3000 * (LeaseLeft(s.c) - 1) < 3000 * m - f <= 3000 * LeaseLeft(s.c)
              else s.c.terms == Terms(0, 0, 0) && s.c.phase == InForce && LeaseLeft(s.c) == 0xffff
  {
    hide Calls, AllTimely, Honest, Wrap16;
    StartExact(origin, host);
    CallsExact(FirstCall(origin, host), origin, es);
    var s := Calls(FirstCall(origin, host), es);
    ClockHonest(s.c, s.host);
    if Expires(s.c) {
      PhaseHonest(s.c, s.host);
      MinutesOf(s.c.clock, s.c.terms.lease);
      MinutesOf(s.c.clock, s.c.terms.t1);
      MinutesOf(s.c.clock, s.c.terms.t2);
    }
  }

  lemma StartExact(origin: nat, host: Host)
    ensures Exact(FirstCall(origin, host), origin)
  {
    SmallWrap16(0);
    hide Wrap16;
  }

  lemma PhaseHonest(c: Client, host: Host)
    requires Honest(c, host) && Expires(c)
    ensures GoodTerms(c.terms) && c.clock.age < c.terms.lease && c.phase == PhaseAt(c.clock.age, c.terms)
  {
  }

  lemma MinutesOf(k: Clock, n: nat)
    requires ClockOk(k)
    ensures k.age < n <==> Elapsed(k) < 3000 * n
  {
  }

  // ----- a server that does not answer -----

  /** The client, the frames of its last transmission and last poll, and how often it has sent. */
  datatype Wait = Wait(c: Client, host: Host, armed: nat, polled: nat, sends: nat)

  /** A poll at a frame, and what it meets. */
  datatype Visit = Visit(at: nat, w: World)

  /** Nothing for us has arrived, and the link takes or refuses what is sent; polls are at most `g` apart. */
  predicate Unanswered(x: Wait, v: Visit, g: nat) {
    && x.polled <= v.at <= x.polled + g && v.w.answer != Pending
    && (Mail(x.c, v.w).Some? ==> !ForUs(x.c, v.w.mac, Mail(x.c, v.w).value))
  }

  function Visited(x: Wait, v: Visit): Wait {
    var r := Poll(x.c, x.host, Wrap16(v.at), v.w);
    if x.c.state == GivenUp then x
    else if r.c.tries > x.c.tries then Wait(r.c, r.host, v.at, v.at, x.sends + 1)
    else Wait(r.c, r.host, x.armed, v.at, x.sends)
  }

  function Visits(x: Wait, vs: seq<Visit>): Wait {
    if vs == [] then x else Visited(Visits(x, vs[..|vs| - 1]), vs[|vs| - 1])
  }

  predicate AllUnanswered(x: Wait, vs: seq<Visit>, g: nat) {
    vs == [] || (AllUnanswered(x, vs[..|vs| - 1], g)
                 && (Visits(x, vs[..|vs| - 1]).c.state != GivenUp ==>
                       Unanswered(Visits(x, vs[..|vs| - 1]), vs[|vs| - 1], g)))
  }

  /** The time up to the n-th transmission, each delay noticed up to `g` late. */
  predicate Waits(x: Wait, start: nat, g: nat) {
    x.host == UNCONFIGURED &&
    if x.c.state == GivenUp then x.polled < start + MAX_TRIES * (RETRY_TICKS + g) && x.sends == MAX_TRIES
    else
      && (x.c.state == Selecting || x.c.state == Requesting) && !x.c.pending
      && 1 <= x.c.tries <= MAX_TRIES && x.sends == x.c.tries
      && x.c.sentAt == Wrap16(x.armed) && x.armed <= x.polled < x.armed + RETRY_TICKS
      && x.armed <= start + (x.c.tries - 1) * (RETRY_TICKS + g)
  }

  lemma VisitWaits(x: Wait, v: Visit, start: nat, g: nat)
    requires Waits(x, start, g) && (x.c.state != GivenUp ==> Unanswered(x, v, g)) && g + RETRY_TICKS < 0x1_0000
    ensures Waits(Visited(x, v), start, g)
  {
    if x.c.state != GivenUp {
      Interval(x.armed, v.at, 0);
      NotForUs(x.c, v.w);
      TransmitKeeps(x.c, x.host, KindFor(x.c.state), Wrap16(v.at), v.w);
      TransmitCounts(x.c, x.host, KindFor(x.c.state), Wrap16(v.at), v.w);
      hide Transmit, ForUs, Parse, Wrap16;
    }
  }

  lemma NotForUs(c: Client, w: World)
    ensures Mail(c, w).Some? && !ForUs(c, w.mac, Mail(c, w).value) ==>
              var p := Parse(c, w.mac, Mail(c, w).value); p.kind == 0 && c.(params := p.p) == c
  {
    hide ForUs;
  }

  lemma TransmitCounts(c: Client, host: Host, kind: Byte, now: U16, w: World)
    ensures var r := Transmit(c, host, kind, now, w).c;
            && r.sentAt == now && r.pending == (w.answer == Pending)
            && (w.answer != Pending && c.tries < 255 ==> r.tries == c.tries + 1)
  {
    hide Message;
  }

  lemma {:induction false} VisitsWait(x: Wait, vs: seq<Visit>, start: nat, g: nat)
    requires Waits(x, start, g) && AllUnanswered(x, vs, g) && g + RETRY_TICKS < 0x1_0000
    ensures Waits(Visits(x, vs), start, g)
  {
    hide Waits, Visited, Unanswered;
    if vs != [] {
      VisitsWait(x, vs[..|vs| - 1], start, g);
      VisitWaits(Visits(x, vs[..|vs| - 1]), vs[|vs| - 1], start, g);
    }
  }

  /** A client that nobody answers sends at most five times from its start on.  With the next hop known
      and polls at most `g` frames apart, every poll made before it has given up comes less than
      1000 + 5 g frames after the start, and so does the poll at which it gives up, without an address
      and after five transmissions; a refused transmission counts like any other. */
  lemma GivesUp(start: nat, w: World, g: nat, vs: seq<Visit>)
    requires w.answer != Pending && g + RETRY_TICKS < 0x1_0000
    requires var r := Start(Wrap16(start), w); AllUnanswered(Wait(r.c, r.host, start, start, 1), vs, g)
    ensures var r := Start(Wrap16(start), w);
            var x := Visits(Wait(r.c, r.host, start, start, 1), vs);
            && x.host == UNCONFIGURED
            && x.sends <= MAX_TRIES && (x.c.state == GivenUp ==> x.sends == MAX_TRIES)
            && x.polled < start + 1000 + 5 * g
            && (vs != [] && vs[|vs| - 1].at >= start + 1000 + 5 * g ==> x.c.state == GivenUp)
  {
    var now := Wrap16(start);
    var r := Start(now, w);
    TransmitKeeps(Fresh(now, w), UNCONFIGURED, MSG_DISCOVER, now, w);
    TransmitCounts(Fresh(now, w), UNCONFIGURED, MSG_DISCOVER, now, w);
    hide Transmit, Visits, AllUnanswered;
    var x := Wait(r.c, r.host, start, start, 1);
    VisitsWait(x, vs, start, g);
    LastVisit(x, vs);
    TriesBound(Visits(x, vs).c.tries, g);
  }

  lemma LastVisit(x: Wait, vs: seq<Visit>)
    ensures vs != [] && Visits(x, vs).c.state != GivenUp ==> Visits(x, vs).polled == vs[|vs| - 1].at
  {
    if vs != [] {
      StaysGivenUp(Visits(x, vs[..|vs| - 1]), vs[|vs| - 1]);
    }
    hide Visited;
  }

  lemma StaysGivenUp(x: Wait, v: Visit)
    ensures if x.c.state == GivenUp then Visited(x, v) == x else Visited(x, v).polled == v.at
  {
    hide Poll;
  }

  lemma TriesBound(n: int, g: nat)
    ensures 1 <= n <= 5 ==> (n - 1) * (RETRY_TICKS + g) + RETRY_TICKS <= 1000 + 4 * g
  {
  }
}
