/**
  The end-to-end theorem: two endpoints, each running the socket of src/net/mn_tcp.c, and a
  network that is just the growing set of all segments ever sent, any of which may be
  delivered any number of times, in any order, or never.
*/
module TcpNetwork {
  import opened Words
  import opened Common
  import opened Tcp
  import opened TcpInvariants
  import opened TcpSegments
  import opened TcpWindow
  import opened TcpEndToEnd

  /** A socket, everything it has put on the wire, and everything its application has drained. */
  datatype Endpoint = Endpoint(t: Sock, sent: set<Segment>, drained: seq<Byte>)

  /** `a` has connected, `b` has listened. */
  datatype System = System(a: Endpoint, b: Endpoint)

  datatype Move = Move(atA: bool, ev: Event, link: Link, k: nat)

  /** One connection: neither side opens another.  Anything the peer ever sent may arrive, under
      any source address, and so may any RST. */
  predicate Allowed(peer: Endpoint, ev: Event) {
    match ev
    case EConnect(_, _, _, _, _) => false
    case EListen(_) => false
    case EArrive(_, seg, _, _) => seg in peer.sent || seg.fl.rst
    case _ => true
  }

  ghost function Advance(e: Endpoint, ev: Event, link: Link, k: nat): Endpoint {
    var r := Apply(e.t, ev, link, k);
    Endpoint(r.t, e.sent + (set s | s in r.sent),
             e.drained + if ev.ERecv? then Received(e.t, ev.cap) else [])
  }

  ghost function Play(n: System, m: Move): System {
    if m.atA then
      if Allowed(n.b, m.ev) then n.(a := Advance(n.a, m.ev, m.link, m.k)) else n
    else
      if Allowed(n.a, m.ev) then n.(b := Advance(n.b, m.ev, m.link, m.k)) else n
  }

  ghost function Exec(n: System, ms: seq<Move>): System {
    if ms == [] then n else Play(Exec(n, ms[..|ms| - 1]), ms[|ms| - 1])
  }

  /** mn_tcp_connect on one side, mn_tcp_listen on the other, on sockets with any past. */
  ghost function Start(ta: Sock, tb: Sock, ip: Addr, port: U16, localPort: U16, iss: U32, now: U16,
                       link: Link, k: nat): System
  {
    var r := Connect(ta, ip, port, localPort, iss, now, link, k);
    System(Endpoint(r.t, set s | s in r.sent, []), Endpoint(ListenOn(tb, port), {}, []))
  }

  // ----- the invariant -----

  /** What holds of the segments an endpoint has sent goes on holding of them. */
  predicate Grows(t: Sock, u: Sock) {
    && u.iss == t.iss && u.irs == t.irs && t.acc <= u.acc && t.rcvAbs <= u.rcvAbs
    && (Finished(t) ==> Finished(u) && u.acc == t.acc)
  }

  /** The side that connected: its SYNs carry its one initial sequence number. */
  ghost predicate ActiveSide(a: Endpoint) {
    && Inv(a.t) && a.t.state != Listen && a.t.state != SynRcvd && a.drained == Drained(a.t)
    && forall s :: s in a.sent ==> Wire(a.t, s) && (s.fl.syn ==> s.seqno == a.t.iss && !s.fl.ack && !s.fl.rst)
  }

  /** The side that listened: it knows the other's initial sequence number from its SYN. */
  ghost predicate PassiveSide(a: Endpoint, b: Endpoint) {
    && Inv(b.t) && b.t.state != SynSent && b.drained == Drained(b.t)
    && (b.t.rcvAbs >= 1 ==> b.t.irs == a.t.iss)
    && forall s :: s in b.sent && s.fl.syn ==> OldSyn(a.t, s) && s.fl.ack && !s.fl.rst
  }

  /** The listener has not completed a handshake yet: nothing has flowed. */
  ghost predicate Half(a: Endpoint, b: Endpoint) {
    && (b.t.state == Listen || b.t.state == SynRcvd || b.t.state == Closed)
    && b.t.acc == [] && b.t.got == [] && !b.t.eof && a.t.got == [] && !a.t.eof
    && forall s :: s in b.sent ==> s.data == [] && !s.fl.fin && (s.fl.syn || s.fl.rst)
  }

  /** The handshake is complete: both sides agree on both initial sequence numbers. */
  ghost predicate Full(a: Endpoint, b: Endpoint) {
    && b.t.state != Listen && b.t.state != SynRcvd
    && a.t.rcvAbs >= 1 && b.t.rcvAbs >= 1 && a.t.irs == b.t.iss
    && forall s :: s in b.sent ==> Wire(b.t, s)
  }

  ghost predicate NetInv(n: System) {
    ActiveSide(n.a) && PassiveSide(n.a, n.b) && Streams(n.a.t, n.b.t) && (Half(n.a, n.b) || Full(n.a, n.b))
  }

  lemma WireGrows(t: Sock, u: Sock, s: Segment)
    requires Wire(t, s) && Grows(t, u)
    ensures Wire(u, s)
  {
    hide Wrap;
    if !s.fl.syn && !s.fl.rst {
      var off: nat :| Says(t, s, off);
      assert Says(u, s, off);
      var a: nat :| Acks(t, s, a);
      assert Acks(u, s, a);
    }
  }

  lemma GenuineWire(t: Sock, s: Segment)
    requires Genuine(t, s)
    ensures Wire(t, s)
  {
    hide Wrap;
    if !s.fl.syn && !s.fl.rst {
      var off: nat :| Carries(t, s, off);
      assert Says(t, s, off);
    }
  }

  // ----- steps that receive nothing -----

  /** `u` is `t` after a step that received nothing, as far as the two streams go. */
  ghost predicate Quiet(t: Sock, u: Sock) {
    && SameReceived(t, u) && Grows(t, u)
    && forall rcv: Sock :: Stream(t, rcv) ==> Stream(u, rcv)
  }

  lemma QuietSend(t: Sock, data: seq<Byte>)
    requires Inv(t)
    ensures Quiet(t, SendBytes(t, data)) && SendBytes(t, data).rcvCount == t.rcvCount
  {
  }

  lemma QuietDrain(t: Sock, n: nat)
    requires n <= t.rcvCount
    ensures Quiet(t, Drain(t, n)) && Drain(t, n).state == t.state && Drain(t, n).acc == t.acc
    ensures Quiet(t, WantAck(Drain(t, n))) && WantAck(Drain(t, n)).state == t.state && WantAck(Drain(t, n)).acc == t.acc
  {
  }

  lemma QuietRecv(t: Sock, cap: nat)
    ensures Quiet(t, RecvBytes(t, cap)) && RecvBytes(t, cap).state == t.state && RecvBytes(t, cap).acc == t.acc
  {
    QuietDrain(t, Min(cap, t.rcvCount));
    hide EdgeMoved, Quiet, Drain, WantAck;
  }

  lemma QuietClose(t: Sock)
    ensures Quiet(t, CloseDown(t)) && CloseDown(t).rcvCount == t.rcvCount
  {
    hide Quiet, QueueFin, ToClosed;
    QuietFin(t);
    QuietClosed(t);
    QuietSame(t);
  }

  lemma QuietFin(t: Sock)
    ensures Quiet(t, QueueFin(t)) && QueueFin(t).rcvCount == t.rcvCount
  {
  }

  lemma QuietClosed(t: Sock)
    ensures Quiet(t, ToClosed(t)) && ToClosed(t).rcvCount == t.rcvCount
  {
  }

  lemma QuietSame(t: Sock)
    ensures Quiet(t, t)
  {
  }

  lemma QuietAbort(t: Sock, link: Link, k: nat)
    ensures Quiet(t, Abort(t, link, k).t) && Abort(t, link, k).t.rcvCount == t.rcvCount
  {
    AfterEmitFrame(t, FL_RST_ACK, link(k));
    hide AfterEmit;
  }

  /** A poll cannot make our FIN acknowledged. */
  lemma PollFin(t: Sock, u: Sock)
    requires Inv(t) && Inv(u) && PollOnly(t, u) && Synced(u) && FinAcked(u)
    ensures FinAcked(t)
  {
    hide Wrap;
    Positions(u);
    WrapDiff(u.iss + 1 + |u.acc|, 1);
    WrapZero(u.sndNxt, Wrap(u.iss + 1 + |u.acc|));
  }

  lemma QuietPoll(t: Sock, now: U16, link: Link, k: nat)
    requires Inv(t)
    ensures Quiet(t, PollOne(t, now, link, k).t) && PollOne(t, now, link, k).t.rcvCount == t.rcvCount
  {
    hide PollOne, Inv;
    var u := PollOne(t, now, link, k).t;
    HandshakeEof(t);
    PollOnePolls(t, now, link, k);
    PollOneInv(t, now, link, k);
    if Synced(u) && FinAcked(u) {
      PollFin(t, u);
    }
  }

  /** Every step that receives nothing, at an endpoint that opens nothing. */
  predicate Silent(ev: Event) { !ev.EConnect? && !ev.EListen? && !ev.EArrive? }

  lemma SilentQuiet(t: Sock, ev: Event, link: Link, k: nat)
    requires Inv(t) && Silent(ev)
    ensures Quiet(t, Apply(t, ev, link, k).t)
    ensures Drained(Apply(t, ev, link, k).t) == Drained(t) + if ev.ERecv? then Received(t, ev.cap) else []
  {
    hide Quiet, Inv, SendBytes, RecvBytes, CloseDown, Abort, PollOne;
    match ev
    case ESend(data) => QuietSend(t, data); QuietDrained(t, SendBytes(t, data));
    case ERecv(cap) => QuietRecv(t, cap); RecvLater(t, cap);
    case EClose => QuietClose(t); QuietDrained(t, CloseDown(t));
    case EAbort => QuietAbort(t, link, k); QuietDrained(t, Abort(t, link, k).t);
    case EPoll(now) => QuietPoll(t, now, link, k); QuietDrained(t, PollOne(t, now, link, k).t);
  }

  lemma QuietDrained(t: Sock, u: Sock)
    requires Quiet(t, u) && t.rcvCount == u.rcvCount
    ensures Drained(u) == Drained(t) + []
  {
  }

  lemma QueueFinStage(t: Sock)
    ensures SameStage(t, QueueFin(t)) && QueueFin(t).acc == t.acc
  {
  }

  lemma ClosedStage(t: Sock)
    ensures SameStage(t, ToClosed(t)) && ToClosed(t).acc == t.acc && SameStage(t, t)
  {
  }

  lemma CloseStage(t: Sock)
    ensures SameStage(t, CloseDown(t)) && CloseDown(t).acc == t.acc
  {
    hide SameStage, QueueFin, ToClosed;
    QueueFinStage(t);
    ClosedStage(t);
  }

  lemma PollStage(t: Sock, now: U16, link: Link, k: nat)
    requires Inv(t)
    ensures SameStage(t, PollOne(t, now, link, k).t) && PollOne(t, now, link, k).t.acc == t.acc
  {
    HandshakeEof(t);
    PollOnePolls(t, now, link, k);
    hide Inv, PollOne;
  }

  lemma AbortStage(t: Sock, link: Link, k: nat)
    ensures SameStage(t, Abort(t, link, k).t) && Abort(t, link, k).t.acc == t.acc
    ensures forall s :: s in Abort(t, link, k).sent ==> s.fl.rst
  {
    AfterEmitFrame(t, FL_RST_ACK, link(k));
    hide AfterEmit;
  }

  lemma AppStage(t: Sock, data: seq<Byte>, cap: nat)
    ensures SameStage(t, SendBytes(t, data)) && (!CanSend(t) ==> SendBytes(t, data).acc == t.acc)
    ensures SameStage(t, RecvBytes(t, cap)) && RecvBytes(t, cap).acc == t.acc
  {
    QuietRecv(t, cap);
    hide RecvBytes;
  }

  lemma SilentStage(t: Sock, ev: Event, link: Link, k: nat)
    requires Inv(t) && Silent(ev)
    ensures SameStage(t, Apply(t, ev, link, k).t)
    ensures !CanSend(t) ==> Apply(t, ev, link, k).t.acc == t.acc
  {
    hide Inv, SendBytes, RecvBytes, CloseDown, Abort, PollOne, SameStage;
    match ev
    case ESend(data) => AppStage(t, data, 0);
    case ERecv(cap) => AppStage(t, [], cap);
    case EClose => CloseStage(t);
    case EAbort => AbortStage(t, link, k);
    case EPoll(now) => PollStage(t, now, link, k);
  }

  /** Which part of the connection's life a step can lead to. */
  predicate SameStage(t: Sock, u: Sock) {
    && (t.state != Listen && t.state != SynRcvd ==> u.state != Listen && u.state != SynRcvd)
    && (t.state == Listen || t.state == SynRcvd || t.state == Closed ==>
          u.state == Listen || u.state == SynRcvd || u.state == Closed)
    && (t.state != SynSent ==> u.state != SynSent)
  }

  // ----- what an endpoint has sent stays true -----

  lemma ActiveKeeps(a: Endpoint, ev: Event, link: Link, k: nat)
    requires ActiveSide(a) && Silent(ev)
    ensures ActiveSide(Advance(a, ev, link, k))
  {
    var u := Advance(a, ev, link, k);
    SilentQuiet(a.t, ev, link, k);
    SilentStage(a.t, ev, link, k);
    ApplyInv(a.t, ev, link, k);
    ApplyGenuine(a.t, ev, link, k);
    hide Apply, Inv, Wire, Genuine, Grows, SameReceived;
    forall s | s in u.sent ensures Wire(u.t, s) && (s.fl.syn ==> s.seqno == u.t.iss && !s.fl.ack && !s.fl.rst) {
      if s in a.sent {
        WireGrows(a.t, u.t, s);
        GrowsIss(a.t, u.t);
      } else {
        GenuineWire(u.t, s);
        GenuineSyn(u.t, s);
      }
    }
  }

  lemma GrowsIss(t: Sock, u: Sock)
    requires Grows(t, u)
    ensures t.iss == u.iss && t.irs == u.irs
  {
  }

  lemma GenuineSyn(t: Sock, s: Segment)
    requires Genuine(t, s)
    ensures s.fl.syn ==> !s.fl.rst && s.seqno == t.iss && s.data == [] && !s.fl.fin
    ensures s.fl.syn ==> t.state == SynSent || t.state == SynRcvd
    ensures s.fl.syn ==> s.fl.ack == (t.state == SynRcvd)
    ensures t.state == SynRcvd ==> s.fl.syn
  {
  }

  /** A SYN|ACK of the listener acknowledges the SYN it answers. */
  lemma GenuineSynAck(a: Sock, t: Sock, s: Segment)
    requires Genuine(t, s) && Inv(t) && t.state == SynRcvd && t.irs == a.iss
    ensures OldSyn(a, s) && s.fl.ack && !s.fl.rst
  {
    GenuineSyn(t, s);
    var n: nat :| Acks(t, s, n);
    assert n == 1;
  }

  /** A listener that has only half a connection sends nothing but SYN|ACK and RST. */
  lemma HalfSends(t: Sock, ev: Event, link: Link, k: nat)
    requires Inv(t) && Silent(ev) && (t.state == Listen || t.state == SynRcvd || t.state == Closed)
    ensures var r := Apply(t, ev, link, k);
            forall s :: s in r.sent ==> s.data == [] && !s.fl.fin && (s.fl.rst || (s.fl.syn && r.t.state == SynRcvd))
  {
    var r := Apply(t, ev, link, k);
    ApplyGenuine(t, ev, link, k);
    if ev.EAbort? {
      AbortStage(t, link, k);
    } else if ev.EPoll? {
      HalfPolls(t, ev.now, link, k);
    }
    hide Inv, Abort, PollOne, SendBytes, RecvBytes, CloseDown;
  }

  lemma HalfPolls(t: Sock, now: U16, link: Link, k: nat)
    requires t.state == Listen || t.state == SynRcvd || t.state == Closed
    ensures var r := PollOne(t, now, link, k); r.sent != [] ==> r.t.state == SynRcvd
  {
    hide ResendSyn, CountRetry, GiveUp, TimerExpired, PollTimeWait, PollSynced;
    if t.state == SynRcvd {
      HalfResends(t, now, link, k);
      if t.retries < MAX_RETRIES {
        RetryKeepsState(t);
        HalfResends(CountRetry(t), now, link, k);
      }
    }
  }

  lemma RetryKeepsState(t: Sock)
    requires t.retries < MAX_RETRIES
    ensures CountRetry(t).state == t.state
  {
  }

  lemma HalfResends(t: Sock, now: U16, link: Link, k: nat)
    requires t.state == SynRcvd
    ensures ResendSyn(t, now, link, k).t.state == SynRcvd
  {
    Emits(Restart(t, now), FL_SYN_ACK, link(k));
    hide AfterEmit;
  }

  // ----- a segment for either side -----

  /** A segment for a synchronized endpoint: an RST from anyone, or something its peer may say. */
  lemma SyncedArrives(me: Sock, peer: Sock, s: Segment, now: U16)
    requires Streams(me, peer) && Inv(me) && Synced(me) && Short(me) && Short(peer)
    requires s.fl.rst || FromPeer(me, peer, s)
    ensures var u := SegmentInput(me, s, now);
            && Inv(u) && Streams(u, peer) && Grows(me, u) && Drained(u) == Drained(me)
            && u.state != Listen && u.state != SynRcvd && u.state != SynSent
  {
    var u := SegmentInput(me, s, now);
    SegmentInputInv(me, s, now);
    SegmentKept(me, s, now);
    SyncedRole(me, s, now);
    KeptGrows(me, u);
    hide Inv, Kept, Grows, Streams, RstInput, SyncedInput, FromPeer;
    if s.fl.rst {
      RstStreams(me, peer, s);
    } else {
      SyncedStreams(me, peer, s, now);
    }
  }

  lemma RstStreams(me: Sock, peer: Sock, s: Segment)
    requires Streams(me, peer) && Synced(me)
    ensures Streams(RstInput(me, s), peer)
  {
    if RstInWindow(me, s) {
      MarkStreams(me, Reset(me), peer);
    }
    hide Streams, Reset, RstInWindow;
  }

  lemma KeptGrows(t: Sock, u: Sock)
    requires Kept(t, u) && t.state != SynSent && (t.state == Closed ==> u.state == Closed)
    ensures Grows(t, u) && Drained(u) == Drained(t)
  {
  }

  /** A synchronized connection stays synchronized or is over. */
  lemma SyncedRole(me: Sock, s: Segment, now: U16)
    requires Synced(me)
    ensures var u := SegmentInput(me, s, now); Synced(u) || u.state == Closed
  {
    if !s.fl.rst {
      HandleAckKept(me, s.ackno, now);
      HandleAckKept(WantAck(me), s.ackno, now);
      InOrderRole(me, s, now);
      hide HandleAck, InOrder;
    }
  }

  lemma InOrderRole(me: Sock, s: Segment, now: U16)
    requires Synced(me)
    ensures var u := InOrder(me, s, now); Synced(u) || u.state == Closed
  {
    var t1 := WithWindow(HandleAck(me, s.ackno, now), s.wnd);
    var t2 := TakeData(t1, s.data);
    HandleAckKept(me, s.ackno, now);
    TakeDataKept(t1, s.data);
    FinRole(t2);
    AckedRole(t2);
    AckedRole(TakeFin(t2));
    hide HandleAck, TakeData, TakeFin, OurFinAcked, FinReached;
  }

  lemma FinRole(t: Sock)
    requires Synced(t)
    ensures Synced(TakeFin(t))
  {
  }

  lemma AckedRole(t: Sock)
    requires Synced(t)
    ensures Synced(OurFinAcked(t)) || OurFinAcked(t).state == Closed
  {
  }

  /** An old SYN or RST cannot end the peer's stream. */
  lemma OldSynEof(me: Sock, s: Segment, now: U16)
    requires Synced(me) && (OldSyn(me, s) || s.fl.rst)
    ensures SegmentInput(me, s, now).eof == me.eof
  {
    hide HandleAck, TakeData, TakeFin, FinReached, WithWindow, OurFinAcked, WantAck, RstInput;
    if s.fl.rst {
      RstEof(me, s);
    } else {
      var t0 := HandleAck(me, s.ackno, now);
      HandleAckFrame(me, s.ackno, now);
      HandleAckFrame(WantAck(me), s.ackno, now);
      MarkEof(me, s.wnd);
      MarkEof(t0, s.wnd);
      OldSynTakes(WithWindow(t0, s.wnd), s);
      MarkEof(WithWindow(t0, s.wnd), s.wnd);
    }
  }

  lemma RstEof(t: Sock, s: Segment)
    requires Synced(t)
    ensures RstInput(t, s).eof == t.eof
  {
    hide RstInWindow;
  }

  lemma MarkEof(t: Sock, wnd: U16)
    ensures WantAck(t).eof == t.eof && WithWindow(t, wnd).eof == t.eof && OurFinAcked(t).eof == t.eof
    ensures WithWindow(t, wnd).iss == t.iss
  {
  }

  /** The connecting side hears the SYN|ACK. */
  lemma SynSentArrives(me: Sock, peer: Sock, s: Segment)
    requires Streams(me, peer) && Inv(me) && me.state == SynSent
    requires peer.got == [] && !peer.eof && peer.acc == []
    ensures Streams(SynSentInput(me, s), peer) && Drained(SynSentInput(me, s)) == Drained(me)
    ensures SynSentInput(me, s).state == SynSent || SynSentInput(me, s).state == Established
    ensures SynSentInput(me, s).iss == me.iss && !SynSentInput(me, s).eof
  {
    hide Wrap, TakeMss, Wrap16;
  }

  /** Before the handshake an endpoint has sent only SYNs and RSTs, whatever it learns later. */
  lemma WireBefore(t: Sock, u: Sock, s: Segment)
    requires Wire(t, s) && t.rcvAbs == 0
    ensures Wire(u, s)
  {
    hide Wrap;
  }

  // ----- the four kinds of move -----

  lemma SilentStreams(t: Sock, u: Sock, peer: Sock)
    requires Quiet(t, u) && Streams(t, peer)
    ensures Streams(u, peer)
  {
    hide Stream, Grows;
    ReceiverFrame(peer, t, u);
  }

  lemma StreamsSwap(t: Sock, u: Sock)
    requires Streams(t, u)
    ensures Streams(u, t)
  {
    hide Stream;
  }

  lemma PassiveFrame(a: Endpoint, a': Endpoint, b: Endpoint)
    requires PassiveSide(a, b) && a'.t.iss == a.t.iss
    ensures PassiveSide(a', b)
  {
    hide Wrap, Inv;
  }

  lemma ASilent(n: System, ev: Event, link: Link, k: nat)
    requires NetInv(n) && Silent(ev)
    ensures NetInv(System(Advance(n.a, ev, link, k), n.b))
  {
    hide ActiveSide, PassiveSide, Streams, Quiet, Apply, Wire, Wf;
    var a' := Advance(n.a, ev, link, k);
    ActiveKeeps(n.a, ev, link, k);
    ActiveInv(n.a);
    SilentQuiet(n.a.t, ev, link, k);
    QuietReceives(n.a.t, a'.t);
    PassiveFrame(n.a, a', n.b);
    SilentStreams(n.a.t, a'.t, n.b.t);
  }

  lemma ActiveInv(a: Endpoint)
    requires ActiveSide(a)
    ensures Inv(a.t)
  {
    hide Inv, Wire;
  }

  lemma QuietReceives(t: Sock, u: Sock)
    requires Quiet(t, u)
    ensures u.got == t.got && u.eof == t.eof && u.rcvAbs == t.rcvAbs && u.irs == t.irs && u.iss == t.iss
  {
  }

  lemma BSilentHalf(n: System, ev: Event, link: Link, k: nat)
    requires NetInv(n) && Half(n.a, n.b) && Silent(ev)
    ensures NetInv(System(n.a, Advance(n.b, ev, link, k)))
  {
    hide Apply, Inv, Streams, Quiet, Genuine, Wire, ActiveSide;
    var a, b, b' := n.a, n.b, Advance(n.b, ev, link, k);
    SilentQuiet(b.t, ev, link, k);
    SilentStage(b.t, ev, link, k);
    HalfSends(b.t, ev, link, k);
    ApplyInv(b.t, ev, link, k);
    ApplyGenuine(b.t, ev, link, k);
    QuietReceives(b.t, b'.t);
    StreamsSwap(a.t, b.t);
    SilentStreams(b.t, b'.t, a.t);
    StreamsSwap(b'.t, a.t);
    HandshakeKnown(b'.t);
    forall s | s in b'.sent && s.fl.syn ensures OldSyn(a.t, s) && s.fl.ack && !s.fl.rst {
      if s !in b.sent {
        GenuineSyn(b'.t, s);
        GenuineSynAck(a.t, b'.t, s);
      }
    }
  }

  lemma HandshakeKnown(t: Sock)
    requires Inv(t)
    ensures t.state == SynRcvd ==> t.rcvAbs == 1
    ensures t.state == SynSent ==> t.rcvAbs == 0
    ensures Synced(t) ==> t.rcvAbs >= 1
  {
  }

  lemma QuietGrows(t: Sock, u: Sock)
    requires Quiet(t, u)
    ensures Grows(t, u)
  {
  }

  lemma BSilentFull(n: System, ev: Event, link: Link, k: nat)
    requires NetInv(n) && Full(n.a, n.b) && Silent(ev)
    ensures NetInv(System(n.a, Advance(n.b, ev, link, k)))
  {
    hide Apply, Inv, Streams, Quiet, Genuine, Wire, ActiveSide, Grows, OldSyn, Wf;
    var a, b, b' := n.a, n.b, Advance(n.b, ev, link, k);
    SilentQuiet(b.t, ev, link, k);
    SilentStage(b.t, ev, link, k);
    ApplyInv(b.t, ev, link, k);
    ApplyGenuine(b.t, ev, link, k);
    QuietReceives(b.t, b'.t);
    StreamsSwap(a.t, b.t);
    SilentStreams(b.t, b'.t, a.t);
    StreamsSwap(b'.t, a.t);
    QuietGrows(b.t, b'.t);
    forall s | s in b'.sent ensures Wire(b'.t, s) {
      if s in b.sent {
        WireGrows(b.t, b'.t, s);
      } else {
        GenuineWire(b'.t, s);
      }
    }
    forall s | s in b'.sent && s.fl.syn ensures OldSyn(a.t, s) && s.fl.ack && !s.fl.rst {
      if s !in b.sent {
        GenuineSyn(b'.t, s);
      }
    }
  }

  lemma AdvanceArrive(e: Endpoint, ev: Event, link: Link, k: nat)
    requires ev.EArrive? && !(BareSyn(ev.seg) && Listens(e.t, ev.seg))
    ensures var u := Advance(e, ev, link, k);
            && u.sent == e.sent && u.drained == e.drained
            && (u.t == e.t || (Live(e.t) && u.t == SegmentInput(e.t, ev.seg, ev.now)))
  {
    hide SegmentInput, Wf;
    assert (set s | s in Apply(e.t, ev, link, k).sent) == {};
  }

  lemma ASynSent(n: System, s: Segment)
    requires NetInv(n) && n.a.t.state == SynSent && (s in n.b.sent || s.fl.rst)
    ensures NetInv(System(n.a.(t := SegmentInput(n.a.t, s, 0)), n.b))
  {
    var a, b := n.a, n.b;
    var u := SegmentInput(a.t, s, 0);
    HandshakeKnown(a.t);
    assert Half(a, b);
    SegmentInputInv(a.t, s, 0);
    if s.fl.rst {
      RefusedStreams(a.t, b.t, s);
    } else {
      SynSentArrives(a.t, b.t, s);
    }
    assert u.iss == a.t.iss && u.got == [] && !u.eof && Streams(u, b.t) && u.state != Listen && u.state != SynRcvd;
    PassiveFrame(a, a.(t := u), b);
    forall s | s in a.sent ensures Wire(u, s) {
      WireBefore(a.t, u, s);
    }
    hide Inv, Streams, Wire, PassiveSide, SegmentInput;
  }

  lemma RefusedStreams(me: Sock, peer: Sock, s: Segment)
    requires Streams(me, peer) && me.state == SynSent
    ensures var u := RstInput(me, s);
            Streams(u, peer) && SameReceived(me, u) && u.iss == me.iss && Drained(u) == Drained(me)
            && (u.state == SynSent || u.state == Closed)
  {
    MarkStreams(me, Refused(me), peer);
    hide Streams;
  }

  lemma AFromPeer(n: System, s: Segment)
    requires NetInv(n) && Synced(n.a.t) && s in n.b.sent && !s.fl.rst
    ensures FromPeer(n.a.t, n.b.t, s)
  {
    hide Inv, Streams;
  }

  lemma AHalf(n: System, s: Segment, now: U16)
    requires NetInv(n) && Half(n.a, n.b) && Synced(n.a.t) && (s in n.b.sent || s.fl.rst)
    ensures !SegmentInput(n.a.t, s, now).eof
  {
    if !s.fl.rst {
      AFromPeer(n, s);
    }
    OldSynEof(n.a.t, s, now);
    hide Inv, Streams, SegmentInput;
  }

  lemma ASynced(n: System, s: Segment, now: U16)
    requires NetInv(n) && Synced(n.a.t) && (s in n.b.sent || s.fl.rst)
    requires Short(n.a.t) && Short(n.b.t)
    ensures NetInv(System(n.a.(t := SegmentInput(n.a.t, s, now)), n.b))
  {
    hide Inv, Streams, Wire, SegmentInput, FromPeer, OldSyn;
    var a, b := n.a, n.b;
    var u := SegmentInput(a.t, s, now);
    if !s.fl.rst {
      AFromPeer(n, s);
    }
    SyncedArrives(a.t, b.t, s, now);
    GrowsIss(a.t, u);
    PassiveFrame(a, a.(t := u), b);
    forall s | s in a.sent ensures Wire(u, s) {
      WireGrows(a.t, u, s);
    }
    if Half(a, b) {
      AHalf(n, s, now);
    }
    StreamGot(u, b.t);
  }

  lemma StreamGot(t: Sock, u: Sock)
    requires Streams(t, u)
    ensures t.got <= u.acc && u.got <= t.acc
  {
  }

  lemma AArrives(n: System, ev: Event, link: Link, k: nat)
    requires NetInv(n) && ev.EArrive? && (ev.seg in n.b.sent || ev.seg.fl.rst)
    requires Short(n.a.t) && Short(n.b.t)
    ensures NetInv(System(Advance(n.a, ev, link, k), n.b))
  {
    AdvanceArrive(n.a, ev, link, k);
    if n.a.t.state == SynSent {
      SynSentTime(n.a.t, ev.seg, ev.now);
      ASynSent(n, ev.seg);
    } else if Live(n.a.t) {
      ASynced(n, ev.seg, ev.now);
    }
    hide Half, Full, PassiveSide, Streams, Inv, Wire, SegmentInput, Advance;
  }

  lemma SynSentTime(t: Sock, s: Segment, now: U16)
    requires t.state == SynSent
    ensures SegmentInput(t, s, now) == SegmentInput(t, s, 0)
  {
    hide RstInput, SynSentInput;
  }

  // ----- segments for the listening side -----

  lemma ListenerOpens(t: Sock, ev: Event, link: Link, k: nat)
    requires ev.EArrive? && BareSyn(ev.seg) && Listens(t, ev.seg)
    ensures Apply(t, ev, link, k) == PassiveOpen(t, ev.src, ev.seg, ev.iss, ev.now, link, k)
  {
    hide PassiveOpen, SegmentInput, Wf;
  }

  lemma BOpens(n: System, ev: Event, link: Link, k: nat)
    requires NetInv(n) && ev.EArrive? && ev.seg in n.a.sent
    requires BareSyn(ev.seg) && Listens(n.b.t, ev.seg)
    ensures NetInv(System(n.a, Advance(n.b, ev, link, k)))
  {
    hide PassiveOpen, Inv, Genuine, Streams, Wire, Wf;
    var a, b, b' := n.a, n.b, Advance(n.b, ev, link, k);
    var r := PassiveOpen(b.t, ev.src, ev.seg, ev.iss, ev.now, link, k);
    assert Half(a, b);
    PassiveOpenInv(b.t, ev.src, ev.seg, ev.iss, ev.now, link, k);
    PassiveOpenGenuine(b.t, ev.src, ev.seg, ev.iss, ev.now, link, k);
    Opened(a.t, b.t, ev, link, k);
    ListenerOpens(b.t, ev, link, k);
    forall s | s in b'.sent && s.fl.syn ensures OldSyn(a.t, s) && s.fl.ack && !s.fl.rst {
      if s !in b.sent {
        GenuineSynAck(a.t, b'.t, s);
      }
    }
    forall s | s in b'.sent ensures s.data == [] && !s.fl.fin && (s.fl.syn || s.fl.rst) {
      if s !in b.sent {
        GenuineSyn(b'.t, s);
      }
    }
  }

  /** A listener takes the connecting side's SYN. */
  lemma Opened(a: Sock, b: Sock, ev: Event, link: Link, k: nat)
    requires Streams(a, b) && b.got == [] && b.acc == [] && a.got == [] && !a.eof && !b.eof && ev.EArrive?
    requires ev.seg.seqno == a.iss
    ensures var u := PassiveOpen(b, ev.src, ev.seg, ev.iss, ev.now, link, k).t;
            && Streams(a, u) && u.state == SynRcvd && u.irs == a.iss && u.rcvAbs == 1
            && u.acc == [] && u.got == [] && !u.eof && Drained(u) == Drained(b)
  {
    hide Wrap, TakeMss, Wrap16;
  }

  lemma BHalfArrives(n: System, s: Segment, now: U16)
    requires NetInv(n) && n.b.t.state == SynRcvd && (s in n.a.sent || s.fl.rst)
    requires Short(n.a.t) && Short(n.b.t)
    ensures NetInv(System(n.a, n.b.(t := SegmentInput(n.b.t, s, now))))
  {
    hide Inv, Streams, Wire, SegmentInput, ActiveSide, OldSyn;
    var a, b := n.a, n.b;
    var u := SegmentInput(b.t, s, now);
    assert Half(a, b);
    SegmentInputInv(b.t, s, now);
    StreamsSwap(a.t, b.t);
    if s.fl.rst || s.fl.syn || !s.fl.ack || s.ackno != b.t.sndNxt || s.seqno != b.t.rcvNxt {
      StillHalf(a.t, b.t, s, now);
      StreamsSwap(u, a.t);
    } else {
      HandshakeDone(n, s);
      Completes(a.t, b.t, s, now);
      GrowsIss(b.t, u);
      StreamsSwap(u, a.t);
      forall s | s in b.sent ensures Wire(u, s) {
        SynWire(u, s);
      }
    }
  }

  lemma SynWire(t: Sock, s: Segment)
    requires s.data == [] && !s.fl.fin && (s.fl.syn || s.fl.rst)
    ensures Wire(t, s)
  {
  }

  /** The listener's handshake completes, with whatever the last ACK carries. */
  lemma Completes(a: Sock, b: Sock, s: Segment, now: U16)
    requires Streams(b, a) && Inv(b) && b.state == SynRcvd && a.got == [] && b.acc == [] && Short(a) && Short(b)
    requires !s.fl.rst && !s.fl.syn && s.fl.ack && s.ackno == b.sndNxt && s.seqno == b.rcvNxt
    requires FromPeer(Establish(b, s), a, s)
    ensures var u := SegmentInput(b, s, now);
            Streams(u, a) && Grows(b, u) && Drained(u) == Drained(b) && (Synced(u) || u.state == Closed) && u.rcvAbs >= 1
  {
    hide Inv, Streams, SyncedInput, Kept, Grows, FromPeer, Establish, Drained;
    var t1 := Establish(b, s);
    EstablishInv(b, s);
    EstablishStreams(b, a, s);
    EstablishKept(b, s);
    EstablishedNow(b, s);
    SyncedStreams(t1, a, s, now);
    SyncedKept(t1, s, now);
    KeptTrans(b, t1, SyncedInput(t1, s, now));
    KeptGrows(b, SyncedInput(t1, s, now));
    SyncedInputRole(t1, s, now);
    HandshakeKnown(b);
    GrowsRcv(b, SyncedInput(t1, s, now));
  }

  lemma EstablishedNow(t: Sock, s: Segment)
    ensures var u := Establish(t, s); u.state == Established && u.acc == t.acc && u.rcvAbs == t.rcvAbs
  {
  }

  lemma GrowsRcv(t: Sock, u: Sock)
    requires Grows(t, u)
    ensures u.rcvAbs >= t.rcvAbs
  {
  }

  /** The listener's handshake can only be completed by a peer that knows its initial sequence number. */
  lemma HandshakeDone(n: System, s: Segment)
    requires NetInv(n) && n.b.t.state == SynRcvd && s in n.a.sent && !s.fl.syn && !s.fl.rst
    requires s.ackno == n.b.t.sndNxt
    ensures n.a.t.irs == n.b.t.iss && n.a.t.rcvAbs >= 1 && n.b.t.irs == n.a.t.iss
    ensures FromPeer(Establish(n.b.t, s), n.a.t, s)
  {
    var a, b := n.a, n.b;
    assert Half(a, b);
    HandshakeKnown(b.t);
    assert Stream(b.t, a.t);
    assert b.t.sndNxt == Wrap(b.t.iss + 1);
    var n: nat :| Acks(a.t, s, n);
    assert n == 1;
    WrapInjective(1, a.t.irs, b.t.iss);
  }

  lemma EstablishStreams(b: Sock, a: Sock, s: Segment)
    requires Streams(b, a) && Inv(b) && b.state == SynRcvd && a.got == [] && b.acc == []
    ensures Streams(Establish(b, s), a)
  {
    hide Wrap;
  }

  lemma StillHalf(a: Sock, b: Sock, s: Segment, now: U16)
    requires Streams(b, a) && b.state == SynRcvd && !b.eof
    requires s.fl.rst || s.fl.syn || !s.fl.ack || s.ackno != b.sndNxt || s.seqno != b.rcvNxt
    ensures var u := SegmentInput(b, s, now);
            && Streams(u, a) && SameReceived(b, u) && u.acc == b.acc && u.irs == b.irs && Drained(u) == Drained(b)
            && (u.state == Listen || u.state == SynRcvd)
  {
    MarkStreams(b, Relisten(b), a);
    MarkStreams(b, SynDue(b, true), a);
    hide Streams;
  }

  lemma SyncedInputRole(t: Sock, s: Segment, now: U16)
    requires Synced(t)
    ensures var u := SyncedInput(t, s, now); Synced(u) || u.state == Closed
  {
    HandleAckKept(t, s.ackno, now);
    HandleAckKept(WantAck(t), s.ackno, now);
    InOrderRole(t, s, now);
    hide HandleAck, InOrder;
  }

  lemma BSynced(n: System, s: Segment, now: U16)
    requires NetInv(n) && Synced(n.b.t) && (s in n.a.sent || s.fl.rst)
    requires Short(n.a.t) && Short(n.b.t)
    ensures NetInv(System(n.a, n.b.(t := SegmentInput(n.b.t, s, now))))
  {
    var a, b := n.a, n.b;
    var u := SegmentInput(b.t, s, now);
    assert Full(a, b);
    assert s.fl.rst || FromPeer(b.t, a.t, s);
    StreamsSwap(a.t, b.t);
    SyncedArrives(b.t, a.t, s, now);
    GrowsIss(b.t, u);
    StreamsSwap(u, a.t);
    forall s | s in b.sent ensures Wire(u, s) {
      WireGrows(b.t, u, s);
    }
    assert u.rcvAbs >= b.t.rcvAbs;
    hide Inv, Streams, Wire, SegmentInput, Grows, FromPeer, OldSyn, ActiveSide;
  }

  lemma BArrives(n: System, ev: Event, link: Link, k: nat)
    requires NetInv(n) && ev.EArrive? && (ev.seg in n.a.sent || ev.seg.fl.rst)
    requires Short(n.a.t) && Short(n.b.t)
    ensures NetInv(System(n.a, Advance(n.b, ev, link, k)))
  {
    if BareSyn(ev.seg) && Listens(n.b.t, ev.seg) {
      BOpens(n, ev, link, k);
    } else {
      AdvanceArrive(n.b, ev, link, k);
      if n.b.t.state == SynRcvd {
        BHalfArrives(n, ev.seg, ev.now);
      } else if Live(n.b.t) {
        BSynced(n, ev.seg, ev.now);
      }
      hide Half, Full, ActiveSide, Streams, Inv, Wire, SegmentInput, Advance;
    }
  }

  // ----- whole runs -----

  lemma PlayInv(n: System, m: Move)
    requires NetInv(n) && Short(n.a.t) && Short(n.b.t)
    ensures NetInv(Play(n, m))
  {
    hide NetInv, Advance;
    if m.ev.EArrive? {
      if m.atA && Allowed(n.b, m.ev) {
        AArrives(n, m.ev, m.link, m.k);
      } else if !m.atA && Allowed(n.a, m.ev) {
        BArrives(n, m.ev, m.link, m.k);
      }
    } else if Silent(m.ev) {
      if m.atA {
        ASilent(n, m.ev, m.link, m.k);
      } else {
        BSilent(n, m.ev, m.link, m.k);
      }
    }
  }

  lemma BSilent(n: System, ev: Event, link: Link, k: nat)
    requires NetInv(n) && Silent(ev)
    ensures NetInv(System(n.a, Advance(n.b, ev, link, k)))
  {
    if Half(n.a, n.b) {
      BSilentHalf(n, ev, link, k);
    } else {
      BSilentFull(n, ev, link, k);
    }
    hide Inv, Streams, ActiveSide, PassiveSide, Half, Full, Advance;
  }

  lemma StartInv(ta: Sock, tb: Sock, ip: Addr, port: U16, localPort: U16, iss: U32, now: U16, link: Link, k: nat)
    requires Inv(ta) && Inv(tb) && ta.state == Closed && tb.state == Closed && port != 0
    ensures NetInv(Start(ta, tb, ip, port, localPort, iss, now, link, k))
  {
    var n := Start(ta, tb, ip, port, localPort, iss, now, link, k);
    ConnectInv(ta, ip, port, localPort, iss, now, link, k);
    ConnectGenuine(ta, ip, port, localPort, iss, now, link, k);
    ListenInv(tb, port);
    StartStreams(ta, tb, ip, port, localPort, iss, now, link, k);
    hide Inv, Genuine, Connect, ListenOn, Streams;
    forall s | s in n.a.sent ensures Wire(n.a.t, s) && (s.fl.syn ==> s.seqno == n.a.t.iss && !s.fl.ack && !s.fl.rst) {
      GenuineWire(n.a.t, s);
      GenuineSyn(n.a.t, s);
    }
  }

  lemma StartStreams(ta: Sock, tb: Sock, ip: Addr, port: U16, localPort: U16, iss: U32, now: U16, link: Link, k: nat)
    requires ta.state == Closed && tb.state == Closed && port != 0
    ensures var a := Connect(ta, ip, port, localPort, iss, now, link, k).t;
            var b := ListenOn(tb, port);
            && Streams(a, b) && a.state == SynSent && b.state == Listen && b.rcvAbs == 0
            && Drained(a) == [] && Drained(b) == [] && a.got == [] && b.got == [] && b.acc == [] && !a.eof && !b.eof
  {
    hide Wrap;
  }

  /** Neither side ever accepts 2^31 bytes or more. */
  ghost predicate Bounded(n: System, ms: seq<Move>) {
    Short(Exec(n, ms).a.t) && Short(Exec(n, ms).b.t) && (ms == [] || Bounded(n, ms[..|ms| - 1]))
  }

  lemma {:induction false} ExecInv(n: System, ms: seq<Move>)
    requires NetInv(n) && Bounded(n, ms)
    ensures NetInv(Exec(n, ms))
  {
    hide NetInv, Play;
    if ms != [] {
      ExecInv(n, ms[..|ms| - 1]);
      PlayInv(Exec(n, ms[..|ms| - 1]), ms[|ms| - 1]);
    }
  }

  /** Everything `e` has received: what its application has drained, then what is in its ring. */
  function Inbox(e: Endpoint): seq<Byte> { e.drained + RecvQueue(e.t) }

  /** End to end: after any run of one connection, whatever the network loses, repeats,
      reorders or resets,
      - what one side has received is a prefix of what the other side has accepted,
      - a byte has left a send ring only if the peer has it,
      - EOF is flagged only when every accepted byte has arrived, and
      - two synchronized sides agree on both initial sequence numbers. */
  lemma Reliable(ta: Sock, tb: Sock, ip: Addr, port: U16, localPort: U16, iss: U32, now: U16,
                 link: Link, k: nat, ms: seq<Move>)
    requires Inv(ta) && Inv(tb) && ta.state == Closed && tb.state == Closed && port != 0
    requires Bounded(Start(ta, tb, ip, port, localPort, iss, now, link, k), ms)
    ensures var n := Exec(Start(ta, tb, ip, port, localPort, iss, now, link, k), ms);
            && Inbox(n.b) <= n.a.t.acc && Inbox(n.a) <= n.b.t.acc
            && (Synced(n.a.t) ==> Retired(n.a.t) <= |Inbox(n.b)|)
            && (Synced(n.b.t) ==> Retired(n.b.t) <= |Inbox(n.a)|)
            && (n.b.t.eof ==> Inbox(n.b) == n.a.t.acc) && (n.a.t.eof ==> Inbox(n.a) == n.b.t.acc)
            && (Synced(n.a.t) && Synced(n.b.t) ==> n.a.t.irs == n.b.t.iss && n.b.t.irs == n.a.t.iss)
  {
    var n0 := Start(ta, tb, ip, port, localPort, iss, now, link, k);
    StartInv(ta, tb, ip, port, localPort, iss, now, link, k);
    hide NetInv, Exec, Start, Bounded, Inv, Stream;
    ExecInv(n0, ms);
    Promises(Exec(n0, ms));
  }

  lemma Promises(n: System)
    requires NetInv(n)
    ensures Inbox(n.b) == n.b.t.got && Inbox(n.a) == n.a.t.got
    ensures Inbox(n.b) <= n.a.t.acc && Inbox(n.a) <= n.b.t.acc
    ensures Synced(n.a.t) ==> Retired(n.a.t) <= |Inbox(n.b)|
    ensures Synced(n.b.t) ==> Retired(n.b.t) <= |Inbox(n.a)|
    ensures (n.b.t.eof ==> Inbox(n.b) == n.a.t.acc) && (n.a.t.eof ==> Inbox(n.a) == n.b.t.acc)
    ensures Synced(n.a.t) && Synced(n.b.t) ==> n.a.t.irs == n.b.t.iss && n.b.t.irs == n.a.t.iss
  {
    assert n.b.t.got == Drained(n.b.t) + RecvQueue(n.b.t);
    assert n.a.t.got == Drained(n.a.t) + RecvQueue(n.a.t);
    hide Inv, Wire, OldSyn, Finished;
  }
}
