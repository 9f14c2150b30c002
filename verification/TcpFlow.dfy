/**
  Flow control from end to end: no sender's right edge ever lies beyond the edges its peer has told
  it, and no byte is ever in flight beyond them, in every run in which no segment with a stale window
  is delivered; and what such a segment does.
*/
module TcpFlow {
  import opened Words
  import opened Common
  import opened Tcp
  import opened TcpInvariants
  import opened TcpSegments
  import opened TcpWindow
  import opened TcpEndToEnd
  import opened TcpNetwork
  import Calls = TcpCalls
  import Queues = TcpClosing

  /** The greatest right edge a socket has told its peer: that of its SYN, or a later one. */
  function Told(t: Sock): nat { if t.edgeAbs > 1 + WINDOW_CAP then t.edgeAbs else 1 + WINDOW_CAP }

  /** What has been acknowledged, counted from our initial sequence number: SYN, bytes, FIN. */
  function UnaAt(t: Sock): nat { 1 + Retired(t) + if FinAcked(t) then 1 else 0 }

  /** The sender's right edge, and everything it has in flight, lie within what the peer has told. */
  predicate Within(me: Sock, peer: Sock) {
    Synced(me) ==> UnaAt(me) + me.sndWnd <= Told(peer) && 1 + Retired(me) + me.inflight <= Told(peer)
  }

  /** The segment shows no edge that its sender has not told. */
  ghost predicate Tells(t: Sock, s: Segment) {
    && (s.fl.syn && s.fl.ack ==> s.wnd <= WINDOW_CAP)
    && (!s.fl.syn && !s.fl.rst ==> exists a: nat :: Shows(t, s, a))
  }

  predicate Shows(t: Sock, s: Segment, a: nat) { Acks(t, s, a) && a + s.wnd <= t.edgeAbs }

  /** The window of the segment is taken at the acknowledgement it came with: an in-order segment does
      not acknowledge less than is acknowledged already, any other one not more. */
  predicate Fresh(t: Sock, s: Segment) {
    s.fl.rst || !s.fl.ack ||
    if s.seqno == t.rcvNxt then AckNew(t, s.ackno) || s.ackno == t.sndUna else !AckNew(t, s.ackno)
  }

  // ----- one segment -----

  lemma UnaIs(t: Sock)
    requires Inv(t) && Synced(t)
    ensures t.sndUna == Wrap(t.iss + UnaAt(t))
  {
    hide Wrap;
  }

  /** Retiring does not change how far the bytes in flight reach. */
  lemma ReachKept(t: Sock, s: Segment, now: U16)
    requires Inv(t) && Synced(t)
    ensures var u := SegmentInput(t, s, now); Retired(u) + u.inflight == Retired(t) + t.inflight
  {
    SegmentKept(t, s, now);
    if s.fl.rst {
      Queues.RstQueue(t, s);
    } else {
      Queues.SyncedQueue(t, s, now);
    }
    hide RstInput, SyncedInput, Inv;
  }

  /** The acknowledgement and the edge a segment of the peer shows. */
  lemma Shown(me: Sock, peer: Sock, s: Segment) returns (a: nat)
    requires FromPeer(me, peer, s) && s.fl.ack && Stream(me, peer) && Tells(peer, s)
    ensures s.ackno == Wrap(me.iss + a) && Earned(peer, a) && a + s.wnd <= Told(peer)
  {
    if OldSyn(me, s) {
      a := 1;
    } else {
      a :| Shows(peer, s, a);
    }
  }

  lemma InOrderWithin(me: Sock, peer: Sock, s: Segment, now: U16)
    requires Inv(me) && Synced(me) && Streams(me, peer) && Short(me) && Short(peer)
    requires FromPeer(me, peer, s) && Tells(peer, s) && s.fl.ack && s.seqno == me.rcvNxt
    requires AckNew(me, s.ackno) || s.ackno == me.sndUna
    ensures var u := SegmentInput(me, s, now); Synced(u) ==> UnaAt(u) + u.sndWnd <= Told(peer)
  {
    hide Inv, InOrder, AckNew, Wrap, FromPeer, Streams, SyncedInput;
    var u := SegmentInput(me, s, now);
    SegmentInputInv(me, s, now);
    SegmentKept(me, s, now);
    FromPeerPlain(me, peer, s, now);
    Calls.InOrderEdge(me, s, now);
    StreamsFirst(me, peer);
    var a := Shown(me, peer, s);
    if Synced(u) {
      UnaIs(u);
      KeptIss(me, u);
      EarnedSmall(me, peer, a);
      UnaSmall(u);
      WrapInjective(me.iss, a, UnaAt(u));
    }
  }

  lemma StreamsFirst(me: Sock, peer: Sock)
    requires Streams(me, peer)
    ensures Stream(me, peer)
  {
    hide Stream;
  }

  lemma FromPeerPlain(me: Sock, peer: Sock, s: Segment, now: U16)
    requires FromPeer(me, peer, s) && Synced(me)
    ensures !s.fl.rst && SegmentInput(me, s, now) == SyncedInput(me, s, now)
    ensures s.fl.ack && s.seqno == me.rcvNxt ==> SyncedInput(me, s, now) == InOrder(me, s, now)
  {
    hide InOrder, HandleAck, WantAck, Wire, OldSyn;
  }

  lemma KeptIss(t: Sock, u: Sock)
    requires Kept(t, u)
    ensures u.iss == t.iss && u.acc == t.acc
  {
  }

  lemma EarnedSmall(me: Sock, peer: Sock, a: nat)
    requires Stream(me, peer) && Earned(peer, a) && Short(me)
    ensures a < M32
  {
  }

  lemma UnaSmall(t: Sock)
    requires Short(t)
    ensures UnaAt(t) < M32
  {
  }

  lemma OutOfOrderSame(me: Sock, s: Segment, now: U16)
    requires Synced(me) && !s.fl.rst && (!s.fl.ack || (s.seqno != me.rcvNxt && !AckNew(me, s.ackno)))
    ensures var u := SegmentInput(me, s, now); u == me || u == WantAck(me)
  {
    hide InOrder, WantAck, Retire, AckNew;
    WantUna(me, s.ackno);
  }

  lemma WantUna(t: Sock, ack: U32)
    ensures AckNew(WantAck(t), ack) == AckNew(t, ack)
  {
    hide SeqLt, SeqLeq;
  }

  /** A fresh segment keeps the sender within its peer's window. */
  lemma FreshWithin(me: Sock, peer: Sock, s: Segment, now: U16)
    requires Inv(me) && Synced(me) && Streams(me, peer) && Short(me) && Short(peer)
    requires s.fl.rst || (FromPeer(me, peer, s) && Tells(peer, s))
    requires Within(me, peer) && Fresh(me, s)
    ensures Within(SegmentInput(me, s, now), peer)
  {
    hide Inv, SegmentInput, AckNew, FromPeer, Tells, Streams, Told, UnaAt;
    ReachKept(me, s, now);
    if s.fl.rst {
      RstSame(me, s, now);
    } else if s.fl.ack && s.seqno == me.rcvNxt {
      FromPeerPlain(me, peer, s, now);
      InOrderWithin(me, peer, s, now);
    } else {
      FromPeerPlain(me, peer, s, now);
      OutOfOrderSame(me, s, now);
      WantSame(me);
    }
  }

  lemma RstSame(t: Sock, s: Segment, now: U16)
    requires Synced(t) && s.fl.rst
    ensures SegmentInput(t, s, now) == t || SegmentInput(t, s, now).state == Closed
  {
    hide RstInWindow;
  }

  lemma WantSame(t: Sock)
    ensures var u := WantAck(t); UnaAt(u) == UnaAt(t) && u.sndWnd == t.sndWnd && Synced(u) == Synced(t)
  {
  }

  // ----- what an unfresh segment does -----

  /** The positions of an acknowledgement that was sent for something we did send: new exactly if it
      lies beyond what is acknowledged. */
  lemma AckPosition(t: Sock, a: nat)
    requires Inv(t) && Synced(t) && Short(t) && 1 <= a <= 1 + Retired(t) + t.inflight + FinLen(t)
    ensures AckNew(t, Wrap(t.iss + a)) <==> a > UnaAt(t)
    ensures Wrap(t.iss + a) == t.sndUna <==> a == UnaAt(t)
  {
    hide Inv, AckNew, Wrap, UnaAt;
    var una, nxt := UnaAt(t), 1 + Retired(t) + t.inflight + FinLen(t);
    UnaIs(t);
    NxtIs(t);
    Reaches(t);
    AckWindow(t, Wrap(t.iss + a));
    Apart(t.iss + a, t.iss + una);
    Apart(t.iss + nxt, t.iss + una);
    WrapSmall(a, una);
    WrapSmall(nxt, una);
    if Wrap(t.iss + a) == t.sndUna {
      WrapInjective(t.iss, a, una);
    }
  }

  lemma NxtIs(t: Sock)
    requires Inv(t) && Synced(t)
    ensures t.sndNxt == Wrap(t.iss + (1 + Retired(t) + t.inflight + FinLen(t)))
  {
    hide Wrap;
  }

  lemma Reaches(t: Sock)
    requires Inv(t) && Synced(t) && Short(t)
    ensures UnaAt(t) <= 1 + Retired(t) + t.inflight + FinLen(t) < HALF + 2
    ensures 1 + Retired(t) + t.inflight + FinLen(t) - UnaAt(t) < HALF
  {
    hide Wrap;
  }

  /** The edge that counts is the one the segment shows, and the segment is in order: the sender stays
      within it exactly if the segment is fresh; otherwise an old window is counted from a newer
      position. */
  lemma StaleWindow(me: Sock, peer: Sock, s: Segment, now: U16, a: nat)
    requires Inv(me) && Synced(me) && Short(me) && !s.fl.rst && s.fl.ack && s.seqno == me.rcvNxt
    requires s.ackno == Wrap(me.iss + a) && 1 <= a <= 1 + Retired(me) + me.inflight + FinLen(me)
    requires a + s.wnd == Told(peer) && Synced(SegmentInput(me, s, now))
    ensures var u := SegmentInput(me, s, now); UnaAt(u) + u.sndWnd <= Told(peer) <==> Fresh(me, s)
  {
    hide Inv, InOrder, AckNew, Wrap, Told, UnaAt;
    var u := SegmentInput(me, s, now);
    SegmentInputInv(me, s, now);
    SegmentKept(me, s, now);
    Calls.InOrderEdge(me, s, now);
    KeptIss(me, u);
    AckPosition(me, a);
    UnaIs(u);
    UnaIs(me);
    UnaSmall(u);
    UnaSmall(me);
    Reaches(me);
    WrapInjective(me.iss, UnaAt(u), if AckNew(me, s.ackno) then a else UnaAt(me));
  }

  /** The edge that counts is the sender's own, and the segment is out of order: the sender stays within
      it exactly if the segment is fresh; otherwise a new position is taken without its window. */
  lemma StalePosition(me: Sock, peer: Sock, s: Segment, now: U16, a: nat)
    requires Inv(me) && Synced(me) && Short(me) && !s.fl.rst && s.fl.ack && s.seqno != me.rcvNxt
    requires s.ackno == Wrap(me.iss + a) && 1 <= a <= 1 + Retired(me) + me.inflight + FinLen(me)
    requires UnaAt(me) + me.sndWnd == Told(peer)
    ensures var u := SegmentInput(me, s, now); UnaAt(u) + u.sndWnd <= Told(peer) <==> Fresh(me, s)
  {
    hide Inv, AckNew, Wrap, Told, UnaAt, HandleAck, SegmentInput, Fresh, WantAck, SendSideOnly;
    AckPosition(me, a);
    if AckNew(me, s.ackno) {
      var t0 := if s.data != [] || s.fl.fin then WantAck(me) else me;
      OutOfOrderIs(me, s, now);
      MarkedSame(me);
      WantUna(me, s.ackno);
      var u := HandleAck(t0, s.ackno, now);
      HandleAckInv(t0, s.ackno, now);
      Calls.UnaAfter(t0, s.ackno, now);
      AckKeeps(t0, s.ackno, now);
      UnaIs(u);
      UnaIs(me);
      UnaSmall(u);
      Reaches(me);
      WrapInjective(me.iss, UnaAt(u), a);
      NotFresh(me, s);
    } else {
      OutOfOrderSame(me, s, now);
      WantSame(me);
      NotFresh(me, s);
    }
  }

  lemma OutOfOrderIs(t: Sock, s: Segment, now: U16)
    requires Synced(t) && !s.fl.rst && s.fl.ack && s.seqno != t.rcvNxt
    ensures SegmentInput(t, s, now) == HandleAck(if s.data != [] || s.fl.fin then WantAck(t) else t, s.ackno, now)
  {
    hide HandleAck, WantAck;
  }

  lemma AckKeeps(t: Sock, ack: U32, now: U16)
    ensures var u := HandleAck(t, ack, now); u.iss == t.iss && u.acc == t.acc && u.sndWnd == t.sndWnd && u.state == t.state
  {
    HandleAckFrame(t, ack, now);
    HandleAckKept(t, ack, now);
    hide HandleAck;
  }

  lemma MarkedSame(t: Sock)
    requires Inv(t) && Synced(t)
    ensures var u := WantAck(t); Inv(u) && Synced(u) && u.iss == t.iss && u.acc == t.acc && u.sndWnd == t.sndWnd
  {
    WantAckInv(t);
    hide Inv;
  }

  lemma NotFresh(t: Sock, s: Segment)
    requires !s.fl.rst && s.fl.ack && s.seqno != t.rcvNxt
    ensures Fresh(t, s) <==> !AckNew(t, s.ackno)
  {
    hide AckNew;
  }

  // ----- steps that receive nothing -----

  /** A step that receives nothing tells the peer no new edge, or the current one. */
  lemma SilentEdge(t: Sock, ev: Event, link: Link, k: nat)
    requires Inv(t) && Silent(ev)
    ensures var u := Apply(t, ev, link, k).t; u.edgeAbs == t.edgeAbs || (Live(t) && u.edgeAbs == Edge(t))
  {
    hide Inv, SendBytes, RecvBytes, CloseDown, Abort, PollOne;
    match ev
    case ESend(data) => SendEdge(t, data);
    case ERecv(cap) => RecvEdge(t, cap);
    case EClose => CloseEdge(t);
    case EAbort => AbortEdge(t, link, k);
    case EPoll(now) => PollEdge(t, now, link, k);
  }

  lemma SendEdge(t: Sock, data: seq<Byte>)
    ensures var u := SendBytes(t, data); u.edgeAbs == t.edgeAbs && u.sndWnd == t.sndWnd && u.inflight == t.inflight
    ensures var u := SendBytes(t, data); Retired(u) == Retired(t) && FinAcked(u) == FinAcked(t) && Synced(u) == Synced(t)
  {
  }

  lemma RecvEdge(t: Sock, cap: nat)
    ensures var u := RecvBytes(t, cap); u.edgeAbs == t.edgeAbs && SameSide(t, u)
  {
    var u := Drain(t, Min(cap, t.rcvCount));
    DrainEdge(t, Min(cap, t.rcvCount));
    WantEdge(u);
    hide Drain, WantAck, EdgeMoved;
  }

  /** The sending side stands where it stood. */
  predicate SameSide(t: Sock, u: Sock) {
    && u.sndWnd == t.sndWnd && u.inflight == t.inflight && Retired(u) == Retired(t)
    && (Synced(u) ==> Synced(t)) && (FinAcked(u) ==> FinAcked(t))
  }

  lemma DrainEdge(t: Sock, n: nat)
    requires n <= t.rcvCount
    ensures Drain(t, n).edgeAbs == t.edgeAbs && SameSide(t, Drain(t, n))
  {
  }

  lemma WantEdge(t: Sock)
    ensures WantAck(t).edgeAbs == t.edgeAbs && SameSide(t, WantAck(t)) && SameSide(t, t)
  {
  }

  lemma CloseEdge(t: Sock)
    ensures CloseDown(t).edgeAbs == t.edgeAbs && SameSide(t, CloseDown(t))
  {
    hide QueueFin, ToClosed, SameSide;
    FinEdge(t);
    EndEdge(t);
    WantEdge(t);
  }

  lemma FinEdge(t: Sock)
    ensures QueueFin(t).edgeAbs == t.edgeAbs && SameSide(t, QueueFin(t))
  {
  }

  lemma EndEdge(t: Sock)
    ensures ToClosed(t).edgeAbs == t.edgeAbs && SameSide(t, ToClosed(t))
  {
  }

  lemma AbortEdge(t: Sock, link: Link, k: nat)
    ensures var u := Abort(t, link, k).t; !Synced(u) && (u.edgeAbs == t.edgeAbs || (Live(t) && u.edgeAbs == Edge(t)))
  {
    hide Wrap;
  }

  lemma PollEdge(t: Sock, now: U16, link: Link, k: nat)
    requires Inv(t)
    ensures var u := PollOne(t, now, link, k).t; u.edgeAbs == t.edgeAbs || (Live(t) && u.edgeAbs == Edge(t))
  {
    HandshakeEof(t);
    PollOnePolls(t, now, link, k);
    hide Inv, PollHandshake, PollTimeWait, PollSynced;
    if Live(t) {
      hide PollOne;
    }
  }

  /** What a poll puts in flight fits the peer's window. */
  lemma PollFlight(t: Sock, now: U16, link: Link, k: nat)
    requires Inv(t) && Synced(t)
    ensures var u := PollOne(t, now, link, k).t; u.inflight == t.inflight || u.inflight <= t.sndWnd
  {
    hide Inv, Retransmit, SendQueued, SendFin, SendAck, PollTimeWait, TimerExpired, Outstanding;
    RetransmitFlight(t, now, link, k);
    QueuedFlight(t, now, link, k);
    OthersFlight(t, now, link, k);
    WaitFlight(t, now, link, k);
  }

  lemma RetransmitFlight(t: Sock, now: U16, link: Link, k: nat)
    requires Synced(t)
    ensures Retransmit(t, now, link, k).t.inflight == t.inflight
  {
    if t.retries < MAX_RETRIES {
      var t1 := OneSegment(Restart(CountRetry(t), now));
      assert t1.inflight == t.inflight;
      hide OneSegment, Restart, CountRetry;
      AfterEmitFrame(t1, FL_DATA, link(k));
      AfterEmitFrame(t1, FL_FIN_ACK, link(k));
    }
    hide AfterEmit;
  }

  lemma QueuedFlight(t: Sock, now: U16, link: Link, k: nat)
    ensures var u := SendQueued(t, now, link, k).t; u.inflight == t.inflight || u.inflight <= t.sndWnd
  {
    SendLoopLimit(t, Min(t.sndWnd, t.cwnd), now, link, k);
    hide SendLoop;
  }

  lemma OthersFlight(t: Sock, now: U16, link: Link, k: nat)
    requires Synced(t)
    ensures SendFin(t, now, link, k).t.inflight == t.inflight && SendAck(t, link, k).t.inflight == t.inflight
  {
    AfterEmitFrame(t, FL_FIN_ACK, link(k));
    AfterEmitFrame(t, FL_ACK, link(k));
    hide AfterEmit;
  }

  lemma WaitFlight(t: Sock, now: U16, link: Link, k: nat)
    ensures PollTimeWait(t, now, link, k).t.inflight == t.inflight
  {
    DoneFlight(t);
    var t2 := AfterEmit(AckDone(t), FL_ACK, link(k));
    AfterEmitFrame(AckDone(t), FL_ACK, link(k));
    FromFlight(t2, now);
    ClosedFlight(t);
    ClosedFlight(WaitFrom(t2, now));
    hide AfterEmit, AckDone, WaitFrom, ToClosed, Wrap16;
  }

  lemma DoneFlight(t: Sock)
    ensures AckDone(t).inflight == t.inflight
  {
  }

  lemma FromFlight(t: Sock, now: U16)
    ensures WaitFrom(t, now).inflight == t.inflight
  {
  }

  lemma ClosedFlight(t: Sock)
    ensures ToClosed(t).inflight == t.inflight
  {
  }

  /** A step that receives nothing keeps the sender within what the peer has told. */
  lemma SilentWithin(me: Sock, peer: Sock, ev: Event, link: Link, k: nat)
    requires Inv(me) && Silent(ev) && Within(me, peer)
    ensures Within(Apply(me, ev, link, k).t, peer)
  {
    hide Inv, SendBytes, RecvBytes, CloseDown, Abort, PollOne, Told;
    match ev
    case ESend(data) => SendEdge(me, data);
    case ERecv(cap) => RecvEdge(me, cap);
    case EClose => CloseEdge(me);
    case EAbort => AbortEdge(me, link, k);
    case EPoll(now) => PollWithin(me, peer, now, link, k);
  }

  lemma PollWithin(me: Sock, peer: Sock, now: U16, link: Link, k: nat)
    requires Inv(me) && Within(me, peer)
    ensures Within(PollOne(me, now, link, k).t, peer)
  {
    hide Inv, PollOne, Told;
    var u := PollOne(me, now, link, k).t;
    HandshakeEof(me);
    PollOnePolls(me, now, link, k);
    PollOneInv(me, now, link, k);
    if Synced(u) {
      PollFlight(me, now, link, k);
      if FinAcked(u) {
        PollFin(me, u);
      }
    }
  }

  // ----- what has been told -----

  ghost predicate AllTell(e: Endpoint) { forall s :: s in e.sent ==> Tells(e.t, s) }

  lemma TellsLater(t: Sock, u: Sock, s: Segment)
    requires Tells(t, s) && u.irs == t.irs && t.rcvAbs <= u.rcvAbs && t.edgeAbs <= u.edgeAbs
    ensures Tells(u, s)
  {
    if !s.fl.syn && !s.fl.rst {
      var a: nat :| Shows(t, s, a);
      assert Shows(u, s, a);
    }
  }

  lemma TellsGenuine(t: Sock, s: Segment)
    requires Genuine(t, s) && Inv(t)
    ensures Tells(t, s)
  {
    hide Wrap;
    if !s.fl.syn && !s.fl.rst {
      var a: nat :| Acks(t, s, a);
      assert Shows(t, s, a);
    }
  }

  /** Of a SYN or an RST nothing is asked that depends on the socket. */
  lemma TellsEarly(t: Sock, u: Sock, s: Segment)
    requires Tells(t, s) && (s.fl.syn || s.fl.rst)
    ensures Tells(u, s)
  {
  }

  lemma SilentTells(e: Endpoint, ev: Event, link: Link, k: nat)
    requires Inv(e.t) && Silent(ev) && AllTell(e)
    ensures AllTell(Advance(e, ev, link, k)) && e.t.edgeAbs <= Advance(e, ev, link, k).t.edgeAbs
  {
    hide Inv, Apply, Tells, Genuine, Quiet, Wf;
    var u := Advance(e, ev, link, k);
    ApplyInv(e.t, ev, link, k);
    ApplyGenuine(e.t, ev, link, k);
    SilentQuiet(e.t, ev, link, k);
    QuietReceives(e.t, u.t);
    SilentEdge(e.t, ev, link, k);
    if Live(e.t) {
      EdgeBound(e.t);
    }
    forall s | s in u.sent ensures Tells(u.t, s) {
      if s in e.sent {
        TellsLater(e.t, u.t, s);
      } else {
        TellsGenuine(u.t, s);
      }
    }
  }

  // ----- the system -----

  /** The invariant of TcpNetwork, and flow control in both directions; a listener has told nothing yet
      but the window of its SYN. */
  ghost predicate FlowInv(n: System) {
    && NetInv(n) && AllTell(n.a) && AllTell(n.b) && Within(n.a.t, n.b.t) && Within(n.b.t, n.a.t)
    && (n.b.t.state == Listen ==> n.b.t.edgeAbs <= 1 + WINDOW_CAP)
  }

  /** No segment with a stale window is delivered. */
  predicate FreshMove(n: System, m: Move) {
    var me := if m.atA then n.a.t else n.b.t;
    m.ev.EArrive? && Synced(me) ==> Fresh(me, m.ev.seg)
  }

  lemma ToldGrows(me: Sock, t: Sock, u: Sock)
    requires Within(me, t) && t.edgeAbs <= u.edgeAbs
    ensures Within(me, u)
  {
    hide UnaAt;
  }

  lemma FlowOf(n: System)
    requires FlowInv(n)
    ensures Inv(n.a.t) && Inv(n.b.t) && Streams(n.a.t, n.b.t) && Streams(n.b.t, n.a.t)
    ensures n.a.t.state != Listen && n.a.t.state != SynRcvd && n.b.t.state != SynSent
  {
    StreamsSwap(n.a.t, n.b.t);
    hide Inv, Streams, Wire, OldSyn, Within, AllTell;
  }

  lemma ASilentFlow(n: System, ev: Event, link: Link, k: nat)
    requires FlowInv(n) && Silent(ev)
    ensures FlowInv(System(Advance(n.a, ev, link, k), n.b))
  {
    hide NetInv, Within, AllTell, Apply, Inv;
    FlowOf(n);
    ASilent(n, ev, link, k);
    SilentTells(n.a, ev, link, k);
    SilentWithin(n.a.t, n.b.t, ev, link, k);
    ToldGrows(n.b.t, n.a.t, Advance(n.a, ev, link, k).t);
  }

  lemma BSilentFlow(n: System, ev: Event, link: Link, k: nat)
    requires FlowInv(n) && Silent(ev)
    ensures FlowInv(System(n.a, Advance(n.b, ev, link, k)))
  {
    hide NetInv, Within, AllTell, Apply, Inv;
    FlowOf(n);
    BSilent(n, ev, link, k);
    SilentTells(n.b, ev, link, k);
    SilentWithin(n.b.t, n.a.t, ev, link, k);
    ToldGrows(n.a.t, n.b.t, Advance(n.b, ev, link, k).t);
    SilentStage(n.b.t, ev, link, k);
    SilentEdge(n.b.t, ev, link, k);
    ListenerEdge(n.b.t, Advance(n.b, ev, link, k).t);
  }

  /** Only a half-open connection leads back to listening, and it has told nothing more. */
  lemma ListenerEdge(t: Sock, u: Sock)
    requires Inv(t) && SameStage(t, u) && (t.state == Listen ==> t.edgeAbs <= 1 + WINDOW_CAP)
    requires u.edgeAbs == t.edgeAbs || (Live(t) && u.edgeAbs == Edge(t))
    ensures u.state == Listen && t.state != Closed ==> u.edgeAbs <= 1 + WINDOW_CAP
  {
    hide Wrap;
  }

  // ----- segments -----

  lemma SyncedFlow(me: Endpoint, peer: Endpoint, s: Segment, now: U16)
    requires Inv(me.t) && Synced(me.t) && Streams(me.t, peer.t) && Short(me.t) && Short(peer.t)
    requires s.fl.rst || (FromPeer(me.t, peer.t, s) && s in peer.sent)
    requires AllTell(me) && AllTell(peer) && Within(me.t, peer.t) && Within(peer.t, me.t) && Fresh(me.t, s)
    ensures var u := SegmentInput(me.t, s, now);
            && Within(u, peer.t) && Within(peer.t, u) && AllTell(me.(t := u)) && u.state != Listen
  {
    hide Inv, Streams, FromPeer, Within, Tells, Fresh, SegmentInput, Grows;
    var u := SegmentInput(me.t, s, now);
    SegmentKept(me.t, s, now);
    SyncedArrives(me.t, peer.t, s, now);
    FreshWithin(me.t, peer.t, s, now);
    KeptTold(me.t, u);
    ToldGrows(peer.t, me.t, u);
    forall r | r in me.sent ensures Tells(u, r) {
      TellsLater(me.t, u, r);
    }
  }

  lemma KeptTold(t: Sock, u: Sock)
    requires Kept(t, u) && t.state != SynSent
    ensures t.edgeAbs <= u.edgeAbs && t.rcvAbs <= u.rcvAbs && t.irs == u.irs
  {
  }

  /** The connecting side takes the window of the SYN|ACK. */
  lemma ConnectFlow(me: Sock, peer: Sock, s: Segment)
    requires Inv(me) && me.state == SynSent && Within(peer, me) && (s.fl.rst || Tells(peer, s))
    ensures var u := SegmentInput(me, s, 0); Within(u, peer) && Within(peer, u) && u.state != Listen
  {
    hide Inv, SynAcked;
    if s.fl.rst {
      RefusedEdge(me);
    } else if s.fl.syn && s.fl.ack && s.ackno == me.sndNxt {
      Answered(me, s);
    }
  }

  lemma RefusedEdge(t: Sock)
    ensures Refused(t).edgeAbs == t.edgeAbs && Refused(t).state == Closed
  {
  }

  lemma Answered(t: Sock, s: Segment)
    requires Inv(t) && t.state == SynSent
    ensures var u := SynAcked(t, s);
            && u.edgeAbs == t.edgeAbs && Retired(u) == 0 && u.inflight == 0 && !u.finSent && u.sndWnd == s.wnd
            && u.state == Established
  {
    hide Wrap, TakeMss, Wrap16;
  }

  lemma AFlow(n: System, ev: Event, link: Link, k: nat)
    requires FlowInv(n) && ev.EArrive? && (ev.seg in n.b.sent || ev.seg.fl.rst)
    requires Short(n.a.t) && Short(n.b.t) && (Synced(n.a.t) ==> Fresh(n.a.t, ev.seg))
    ensures FlowInv(System(Advance(n.a, ev, link, k), n.b))
  {
    hide NetInv, Within, Inv, Advance, SegmentInput, Fresh, Tells, FromPeer, Streams;
    AArrives(n, ev, link, k);
    FlowOf(n);
    AdvanceArrive(n.a, ev, link, k);
    var a, s := n.a, ev.seg;
    var u := Advance(a, ev, link, k);
    if u.t != a.t {
      if a.t.state == SynSent {
        SynSentTime(a.t, s, ev.now);
        ConnectFlow(a.t, n.b.t, s);
        forall r | r in a.sent ensures Tells(u.t, r) {
          OnlySyns(n, r);
          TellsEarly(a.t, u.t, r);
        }
      } else {
        if !s.fl.rst {
          AFromPeer(n, s);
        }
        SyncedFlow(a, n.b, s, ev.now);
      }
    }
  }

  lemma OnlySyns(n: System, s: Segment)
    requires NetInv(n) && n.a.t.state == SynSent && s in n.a.sent
    ensures s.fl.syn || s.fl.rst
  {
    HandshakeKnown(n.a.t);
    hide Inv, Streams;
  }

  lemma BFlow(n: System, ev: Event, link: Link, k: nat)
    requires FlowInv(n) && ev.EArrive? && (ev.seg in n.a.sent || ev.seg.fl.rst)
    requires Short(n.a.t) && Short(n.b.t) && (Synced(n.b.t) ==> Fresh(n.b.t, ev.seg))
    ensures FlowInv(System(n.a, Advance(n.b, ev, link, k)))
  {
    hide NetInv, Within, Inv, Advance, SegmentInput, Fresh, Tells, FromPeer, Streams;
    BArrives(n, ev, link, k);
    FlowOf(n);
    var b, s := n.b, ev.seg;
    if BareSyn(s) && Listens(b.t, s) {
      BOpensFlow(n, ev, link, k);
    } else {
      AdvanceArrive(b, ev, link, k);
      if Advance(b, ev, link, k).t != b.t {
        if b.t.state == SynRcvd {
          BHalfFlow(n, s, ev.now);
        } else {
          if !s.fl.rst {
            BFromPeer(n, s);
          }
          SyncedFlow(b, n.a, s, ev.now);
        }
      }
    }
  }

  lemma BFromPeer(n: System, s: Segment)
    requires NetInv(n) && Synced(n.b.t) && s in n.a.sent && !s.fl.rst
    ensures FromPeer(n.b.t, n.a.t, s)
  {
    hide Inv, Streams;
  }

  /** What a side that has only half a connection has sent. */
  lemma OnlyEarly(n: System, s: Segment)
    requires NetInv(n) && (n.b.t.state == Listen || n.b.t.state == SynRcvd) && s in n.b.sent
    ensures s.fl.syn || s.fl.rst
  {
    hide Inv, Streams, Wire, OldSyn;
  }

  lemma BOpensFlow(n: System, ev: Event, link: Link, k: nat)
    requires FlowInv(n) && ev.EArrive? && BareSyn(ev.seg) && Listens(n.b.t, ev.seg)
    ensures var u := Advance(n.b, ev, link, k);
            AllTell(u) && Within(n.a.t, u.t) && Within(u.t, n.a.t) && u.t.state != Listen
  {
    hide NetInv, Inv, PassiveOpen, Tells, Genuine, Wf;
    FlowOf(n);
    var b, u := n.b, Advance(n.b, ev, link, k);
    ListenerOpens(b.t, ev, link, k);
    PassiveOpenInv(b.t, ev.src, ev.seg, ev.iss, ev.now, link, k);
    PassiveOpenGenuine(b.t, ev.src, ev.seg, ev.iss, ev.now, link, k);
    OpenedState(b.t, ev.src, ev.seg, ev.iss, ev.now, link, k);
    forall s | s in u.sent ensures Tells(u.t, s) {
      if s in b.sent {
        OnlyEarly(n, s);
        TellsEarly(b.t, u.t, s);
      } else {
        TellsGenuine(u.t, s);
      }
    }
  }

  lemma OpenedState(t: Sock, src: Addr, s: Segment, iss: U32, now: U16, link: Link, k: nat)
    ensures PassiveOpen(t, src, s, iss, now, link, k).t.state == SynRcvd
  {
    hide Wrap, TakeMss, Wrap16;
  }

  /** The listening side hears the end of the handshake, or something else. */
  lemma BHalfFlow(n: System, s: Segment, now: U16)
    requires FlowInv(n) && n.b.t.state == SynRcvd && (s in n.a.sent || s.fl.rst) && Short(n.a.t) && Short(n.b.t)
    ensures var u := SegmentInput(n.b.t, s, now);
            && AllTell(n.b.(t := u)) && Within(n.a.t, u) && Within(u, n.a.t)
            && (u.state == Listen ==> u.edgeAbs <= 1 + WINDOW_CAP)
  {
    hide NetInv, Inv, Within, Tells, SegmentInput, Fresh, Streams;
    FlowOf(n);
    var b, u := n.b, SegmentInput(n.b.t, s, now);
    SegmentKept(b.t, s, now);
    KeptTold(b.t, u);
    ToldGrows(n.a.t, b.t, u);
    forall r | r in b.sent ensures Tells(u, r) {
      OnlyEarly(n, r);
      TellsEarly(b.t, u, r);
    }
    if s.fl.rst || s.fl.syn || !s.fl.ack || s.ackno != b.t.sndNxt || s.seqno != b.t.rcvNxt {
      NotSyncedYet(b.t, n.a.t, s, now);
    } else {
      CompletesFlow(n, s, now);
    }
  }

  lemma NotSyncedYet(t: Sock, peer: Sock, s: Segment, now: U16)
    requires Inv(t) && t.state == SynRcvd
    requires s.fl.rst || s.fl.syn || !s.fl.ack || s.ackno != t.sndNxt || s.seqno != t.rcvNxt
    ensures var u := SegmentInput(t, s, now);
            Within(u, peer) && (u.state == Listen ==> u.edgeAbs <= 1 + WINDOW_CAP)
  {
    RelistenEdge(t);
    SynDueEdge(t);
    hide Relisten, SynDue, SyncedInput, Establish, Wrap;
  }

  lemma RelistenEdge(t: Sock)
    ensures Relisten(t).edgeAbs == t.edgeAbs && Relisten(t).state == Listen
  {
  }

  lemma SynDueEdge(t: Sock)
    ensures SynDue(t, true).state == t.state
  {
  }

  lemma CompletesFlow(n: System, s: Segment, now: U16)
    requires FlowInv(n) && n.b.t.state == SynRcvd && s in n.a.sent && Short(n.a.t) && Short(n.b.t)
    requires !s.fl.rst && !s.fl.syn && s.fl.ack && s.ackno == n.b.t.sndNxt && s.seqno == n.b.t.rcvNxt
    ensures Within(SegmentInput(n.b.t, s, now), n.a.t)
    ensures SegmentInput(n.b.t, s, now).state != Listen
  {
    hide Inv, Tells, FromPeer, Streams, SyncedInput, AckNew, Establish, Wire, OldSyn, Told, UnaAt;
    FlowOf(n);
    var a, b, t1 := n.a.t, n.b.t, Establish(n.b.t, s);
    HandshakeDone(n, s);
    NothingYet(n);
    EstablishInv(b, s);
    EstablishStreams(b, a, s);
    Established1(b, s);
    InOrderWithin(t1, a, s, now);
    ReachKept(t1, s, now);
    SyncedInputRole(t1, s, now);
    ReachStart(t1, a);
    assert SegmentInput(b, s, now) == SyncedInput(t1, s, now) == SegmentInput(t1, s, now);
  }

  lemma NothingYet(n: System)
    requires NetInv(n) && n.b.t.state == SynRcvd
    ensures n.a.t.got == [] && n.b.t.acc == []
  {
    hide Inv, Streams, Wire, OldSyn;
  }

  lemma Established1(t: Sock, s: Segment)
    ensures var u := Establish(t, s);
            && u.state == Established && u.sndUna == s.ackno && u.rcvNxt == t.rcvNxt && u.acc == t.acc
  {
  }

  lemma ReachStart(t: Sock, peer: Sock)
    requires t.acc == []
    ensures 1 + Retired(t) + t.inflight <= Told(peer)
  {
  }

  // ----- whole runs -----

  ghost predicate AllFresh(n: System, ms: seq<Move>) {
    ms == [] || (AllFresh(n, ms[..|ms| - 1]) && FreshMove(Exec(n, ms[..|ms| - 1]), ms[|ms| - 1]))
  }

  lemma PlayFlow(n: System, m: Move)
    requires FlowInv(n) && Short(n.a.t) && Short(n.b.t) && FreshMove(n, m)
    ensures FlowInv(Play(n, m))
  {
    hide FlowInv, Advance, Fresh;
    if m.ev.EArrive? {
      if m.atA && Allowed(n.b, m.ev) {
        AFlow(n, m.ev, m.link, m.k);
      } else if !m.atA && Allowed(n.a, m.ev) {
        BFlow(n, m.ev, m.link, m.k);
      }
    } else if Silent(m.ev) {
      if m.atA {
        ASilentFlow(n, m.ev, m.link, m.k);
      } else {
        BSilentFlow(n, m.ev, m.link, m.k);
      }
    }
  }

  lemma StartFlow(ta: Sock, tb: Sock, ip: Addr, port: U16, localPort: U16, iss: U32, now: U16, link: Link, k: nat)
    requires Inv(ta) && Inv(tb) && ta.state == Closed && tb.state == Closed && port != 0
    ensures FlowInv(Start(ta, tb, ip, port, localPort, iss, now, link, k))
  {
    hide NetInv, Tells, Genuine, Connect, ListenOn, Inv;
    var n := Start(ta, tb, ip, port, localPort, iss, now, link, k);
    StartInv(ta, tb, ip, port, localPort, iss, now, link, k);
    ConnectInv(ta, ip, port, localPort, iss, now, link, k);
    ConnectGenuine(ta, ip, port, localPort, iss, now, link, k);
    ConnectState(ta, ip, port, localPort, iss, now, link, k);
    ListenState(tb, port);
    forall s | s in n.a.sent ensures Tells(n.a.t, s) {
      TellsGenuine(n.a.t, s);
    }
  }

  lemma ConnectState(t: Sock, ip: Addr, port: U16, localPort: U16, iss: U32, now: U16, link: Link, k: nat)
    requires t.state == Closed
    ensures Connect(t, ip, port, localPort, iss, now, link, k).t.state == SynSent
  {
    hide Wrap;
  }

  lemma ListenState(t: Sock, port: U16)
    requires t.state == Closed && port != 0
    ensures ListenOn(t, port).state == Listen && ListenOn(t, port).edgeAbs == 0
  {
  }

  lemma {:induction false} ExecFlow(n: System, ms: seq<Move>)
    requires FlowInv(n) && Bounded(n, ms) && AllFresh(n, ms)
    ensures FlowInv(Exec(n, ms))
  {
    hide FlowInv, Play, FreshMove;
    if ms != [] {
      ExecFlow(n, ms[..|ms| - 1]);
      PlayFlow(Exec(n, ms[..|ms| - 1]), ms[|ms| - 1]);
    }
  }

  /** Flow control: after any run of one connection, whatever is lost, repeated, reordered or reset, in
      which no segment with a stale window is delivered, neither side takes its peer's right edge to
      lie beyond what the peer has told, and neither side's bytes in flight reach beyond it. */
  lemma FlowControl(ta: Sock, tb: Sock, ip: Addr, port: U16, localPort: U16, iss: U32, now: U16,
                    link: Link, k: nat, ms: seq<Move>)
    requires Inv(ta) && Inv(tb) && ta.state == Closed && tb.state == Closed && port != 0
    requires var n := Start(ta, tb, ip, port, localPort, iss, now, link, k); Bounded(n, ms) && AllFresh(n, ms)
    ensures var n := Exec(Start(ta, tb, ip, port, localPort, iss, now, link, k), ms);
            Within(n.a.t, n.b.t) && Within(n.b.t, n.a.t)
  {
    hide Exec, Start, Bounded, AllFresh, Inv, NetInv, Within;
    StartFlow(ta, tb, ip, port, localPort, iss, now, link, k);
    ExecFlow(Start(ta, tb, ip, port, localPort, iss, now, link, k), ms);
  }
}
