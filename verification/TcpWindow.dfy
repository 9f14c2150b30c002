/**
  The receive window over the life of a connection, and what holds in every state a socket
  can reach from mn_tcp_init.
*/
module TcpWindow {
  import opened Words
  import opened Tcp
  import opened TcpInvariants
  import opened TcpSegments

  /** The right edge the socket could advertise now, counted from the peer's initial sequence number. */
  function Edge(t: Sock): nat { t.rcvAbs + AdvWindow(t) }

  /** `u` is the same connection as `t`, later: nothing it counts has gone back. */
  predicate Later(t: Sock, u: Sock) {
    && t.edgeAbs <= u.edgeAbs && t.rcvAbs <= u.rcvAbs && Edge(t) <= Edge(u) && t.got <= u.got
    && (t.state != SynSent ==> t.irs == u.irs)
    && t.iss == u.iss && t.acc <= u.acc && Retired(t) <= Retired(u)
  }

  /** Later, and the application has done nothing meanwhile. */
  predicate Kept(t: Sock, u: Sock) {
    Later(t, u) && |t.got| - t.rcvCount == |u.got| - u.rcvCount && t.acc == u.acc
    && t.finSent == u.finSent && t.finQueued == u.finQueued
  }

  lemma KeptTrans(t: Sock, u: Sock, v: Sock)
    requires Kept(t, u) && Kept(u, v) && (t.state != SynSent ==> u.state != SynSent)
    ensures Kept(t, v)
  {
  }

  /** An acknowledgement touches only the send side. */
  predicate SendSideOnly(t: Sock, u: Sock) {
    && u == t.(sndLen := u.sndLen, inflight := u.inflight, sndUna := u.sndUna, retries := u.retries,
               rto := u.rto, sentAt := u.sentAt, cwnd := u.cwnd, txPending := u.txPending)
    && u.sndLen <= t.sndLen
  }

  lemma RetireFrame(t: Sock, n: nat, ack: U32, now: U16)
    requires n <= t.inflight
    ensures SendSideOnly(t, Retire(t, n, ack, now))
  {
    hide GrownCwnd;
  }

  lemma HandleAckFrame(t: Sock, ack: U32, now: U16)
    ensures SendSideOnly(t, HandleAck(t, ack, now))
  {
    if AckNew(t, ack) {
      RetireFrame(t, Acked(t, ack), ack, now);
    } else {
      assert SendSideOnly(t, t);
    }
    hide AckNew, Acked, Retire, SendSideOnly;
  }

  lemma HandleAckKept(t: Sock, ack: U32, now: U16)
    ensures Kept(t, HandleAck(t, ack, now)) && HandleAck(t, ack, now).state == t.state
  {
    HandleAckFrame(t, ack, now);
    hide HandleAck;
  }

  lemma TakeDataKept(t: Sock, data: seq<Byte>)
    ensures Kept(t, TakeData(t, data)) && TakeData(t, data).state == t.state
  {
    hide PutData, Kept;
    PutDataKept(t, data[..Takes(t, |data|)]);
    SameKept(t);
  }

  lemma SameKept(t: Sock)
    ensures Kept(t, t)
  {
  }

  lemma PutDataKept(t: Sock, data: seq<Byte>)
    requires t.rcvCount + |data| <= RCVBUF
    ensures Kept(t, PutData(t, data)) && PutData(t, data).state == t.state
  {
    hide Wrap;
  }

  lemma TakeFinKept(t: Sock)
    ensures Kept(t, TakeFin(t)) && (t.state != SynSent ==> TakeFin(t).state != SynSent)
  {
    hide Wrap;
  }

  lemma OurFinAckedKept(t: Sock)
    ensures Kept(t, OurFinAcked(t))
  {
    hide Kept;
    FlagsKept(t, t);
    if t.finSent && t.sndUna == t.sndNxt {
      StateKept(t, AfterOurFinAcked(t.state));
    }
  }

  lemma StateKept(t: Sock, s: State)
    requires Wf(t.(state := s))
    ensures Kept(t, t.(state := s))
  {
  }

  lemma WindowKept(t: Sock, wnd: U16)
    ensures Kept(t, WithWindow(t, wnd)) && WithWindow(t, wnd).state == t.state
  {
  }

  lemma InOrderKept(t: Sock, s: Segment, now: U16)
    requires t.state != SynSent
    ensures Kept(t, InOrder(t, s, now))
  {
    var t0 := HandleAck(t, s.ackno, now);
    var t1 := WithWindow(t0, s.wnd);
    var t2 := TakeData(t1, s.data);
    var t3 := if FinReached(t1, s) then TakeFin(t2) else t2;
    hide Kept, HandleAck, WithWindow, TakeData, TakeFin, OurFinAcked, FinReached;
    HandleAckKept(t, s.ackno, now);
    WindowKept(t0, s.wnd);
    KeptTrans(t, t0, t1);
    TakeDataKept(t1, s.data);
    TakeFinKept(t2);
    OurFinAckedKept(t3);
    KeptTrans(t, t1, t2);
    if FinReached(t1, s) {
      KeptTrans(t, t2, t3);
    }
    KeptTrans(t, t3, OurFinAcked(t3));
  }

  lemma SyncedKept(t: Sock, s: Segment, now: U16)
    requires t.state != SynSent
    ensures Kept(t, SyncedInput(t, s, now))
  {
    HandleAckKept(t, s.ackno, now);
    HandleAckKept(WantAck(t), s.ackno, now);
    KeptTrans(t, WantAck(t), HandleAck(WantAck(t), s.ackno, now));
    InOrderKept(t, s, now);
    hide Kept, HandleAck, InOrder, WantAck;
  }

  lemma EstablishKept(t: Sock, s: Segment)
    ensures Kept(t, Establish(t, s)) && Establish(t, s).state == Established
  {
  }

  lemma SynDueKept(t: Sock)
    ensures Kept(t, SynDue(t, true))
  {
  }

  lemma SegmentKept(t: Sock, s: Segment, now: U16)
    requires Inv(t) && Live(t)
    ensures Kept(t, SegmentInput(t, s, now))
  {
    hide Inv, Kept, RstInput, SynSentInput, SyncedInput, Establish, SynDue;
    if s.fl.rst {
      RstKept(t, s);
    } else if t.state == SynSent {
      SynSentKept(t, s);
    } else if t.state == SynRcvd {
      EstablishKept(t, s);
      SyncedKept(Establish(t, s), s, now);
      KeptTrans(t, Establish(t, s), SyncedInput(Establish(t, s), s, now));
      SynDueKept(t);
      SameKept(t);
    } else {
      SyncedKept(t, s, now);
    }
  }

  /** Only the state and the reported flags change. */
  lemma FlagsKept(t: Sock, u: Sock)
    requires u == t.(state := u.state, eof := u.eof, reset := u.reset, timeout := u.timeout, refused := u.refused)
    ensures Kept(t, u)
  {
  }

  lemma RefusedKept(t: Sock)
    ensures Kept(t, Refused(t))
  {
    FlagsKept(t, Refused(t));
  }

  lemma RelistenKept(t: Sock)
    ensures Kept(t, Relisten(t))
  {
    FlagsKept(t, Relisten(t));
  }

  lemma ResetKept(t: Sock)
    ensures Kept(t, Reset(t))
  {
    FlagsKept(t, Reset(t));
  }

  lemma RstKept(t: Sock, s: Segment)
    ensures Kept(t, RstInput(t, s))
  {
    hide Refused, Relisten, Reset, RstInWindow, Kept;
    FlagsKept(t, t);
    RefusedKept(t);
    RelistenKept(t);
    ResetKept(t);
  }

  lemma SynSentKept(t: Sock, s: Segment)
    requires Inv(t) && t.state == SynSent
    ensures Kept(t, SynSentInput(t, s))
  {
  }

  /** What the application drains is the front of the ring, so nothing received is lost or reordered. */
  lemma RecvLater(t: Sock, cap: nat)
    ensures Later(t, RecvBytes(t, cap))
    ensures Drained(RecvBytes(t, cap)) == Drained(t) + Received(t, cap)
  {
    hide EdgeMoved, Later, Drain, WantAck, Drained, Received;
    var n := Min(cap, t.rcvCount);
    DrainLater(t, n, cap);
    MarkedLater(t, Drain(t, n));
  }

  lemma DrainLater(t: Sock, n: nat, cap: nat)
    requires n == Min(cap, t.rcvCount)
    ensures Later(t, Drain(t, n)) && Drained(Drain(t, n)) == Drained(t) + Received(t, cap)
  {
  }

  lemma MarkedLater(t: Sock, u: Sock)
    requires Later(t, u)
    ensures Later(t, WantAck(u)) && Drained(WantAck(u)) == Drained(u)
  {
  }

  // ----- the poll -----

  /** What a poll may touch: never the streams, the rings' contents, or what the peer has
      acknowledged; the advertised edge stays or becomes the current one. */
  predicate PollOnly(t: Sock, u: Sock) {
    && u == t.(state := u.state, reset := u.reset, timeout := u.timeout, refused := u.refused,
               sndNxt := u.sndNxt, advEdge := u.advEdge, inflight := u.inflight, cwnd := u.cwnd,
               finSent := u.finSent, ackPending := u.ackPending, synPending := u.synPending,
               txPending := u.txPending, sentAt := u.sentAt, rto := u.rto, timewaitAt := u.timewaitAt,
               retries := u.retries, edgeAbs := u.edgeAbs)
    && (u.edgeAbs == t.edgeAbs || u.edgeAbs == Edge(t))
    && SameRole(t, u)
  }

  /** Where a poll can lead: an established connection never listens again, a half-open one
      is not established by a poll, and what is over stays over. */
  predicate SameRole(t: Sock, u: Sock) {
    && (t.state != Listen && t.state != SynRcvd ==> u.state != Listen && u.state != SynRcvd)
    && (t.state == Listen || t.state == SynRcvd || t.state == Closed ==>
          u.state == Listen || u.state == SynRcvd || u.state == Closed)
    && (t.state != SynSent ==> u.state != SynSent)
    && (Synced(u) ==> Synced(t))
    && (t.state == Closed ==> u.state == Closed) && (t.finSent ==> u.finSent)
  }

  lemma PollOnlyTrans(t: Sock, u: Sock, v: Sock)
    requires PollOnly(t, u) && PollOnly(u, v)
    ensures PollOnly(t, v)
  {
  }

  lemma Emits(t: Sock, fl: Flags, r: Outcome)
    ensures PollOnly(t, AfterEmit(t, fl, r)) && AfterEmit(t, fl, r).state == t.state
  {
  }

  /** Timers, counters and flags. */
  lemma Touched(t: Sock, u: Sock)
    requires u == t.(sentAt := u.sentAt, synPending := u.synPending, txPending := u.txPending,
                     ackPending := u.ackPending, timewaitAt := u.timewaitAt,
                     cwnd := u.cwnd, retries := u.retries, rto := u.rto)
    ensures PollOnly(t, u)
  {
  }

  lemma RestartPolls(t: Sock, now: U16)
    ensures PollOnly(t, Restart(t, now))
  {
    Touched(t, Restart(t, now));
  }

  lemma SynDuePolls(t: Sock, b: bool)
    ensures PollOnly(t, SynDue(t, b))
  {
    Touched(t, SynDue(t, b));
  }

  lemma TxDuePolls(t: Sock, b: bool)
    ensures PollOnly(t, TxDue(t, b))
  {
    Touched(t, TxDue(t, b));
  }

  lemma Marks(t: Sock, now: U16, b: bool)
    ensures PollOnly(t, Restart(t, now)) && PollOnly(t, SynDue(t, b)) && PollOnly(t, TxDue(t, b))
  {
    hide PollOnly, Restart, SynDue, TxDue;
    RestartPolls(t, now);
    SynDuePolls(t, b);
    TxDuePolls(t, b);
  }

  lemma AckMarks(t: Sock, now: U16)
    ensures PollOnly(t, AckDone(t)) && PollOnly(t, WaitFrom(t, now))
  {
    Touched(t, AckDone(t));
    Touched(t, WaitFrom(t, now));
    hide PollOnly, AckDone, WaitFrom;
  }

  lemma ClosedPolls(t: Sock)
    ensures PollOnly(t, ToClosed(t))
  {
  }

  lemma OneSegmentPolls(t: Sock)
    ensures PollOnly(t, OneSegment(t))
  {
    Touched(t, OneSegment(t));
  }

  lemma RetryPolls(t: Sock)
    requires t.retries < MAX_RETRIES
    ensures PollOnly(t, CountRetry(t))
  {
    Touched(t, CountRetry(t));
  }

  lemma Ends(t: Sock)
    ensures PollOnly(t, ToClosed(t)) && PollOnly(t, OneSegment(t)) && PollOnly(t, t)
    ensures t.retries < MAX_RETRIES ==> PollOnly(t, CountRetry(t))
  {
    hide PollOnly, ToClosed, OneSegment, CountRetry;
    ClosedPolls(t);
    OneSegmentPolls(t);
    Touched(t, t);
    if t.retries < MAX_RETRIES {
      RetryPolls(t);
    }
  }

  lemma GivesUp(t: Sock)
    requires t.retries == MAX_RETRIES && (t.state == SynRcvd ==> !t.eof)
    ensures PollOnly(t, GiveUp(t))
  {
    hide TimedOut, Forgotten, PollOnly;
    if t.state == SynRcvd {
      ForgottenPolls(t);
    } else {
      TimedOutPolls(t);
    }
  }

  lemma TimedOutPolls(t: Sock)
    requires t.retries == MAX_RETRIES
    ensures PollOnly(t, TimedOut(t))
  {
  }

  lemma ForgottenPolls(t: Sock)
    requires t.retries == MAX_RETRIES && t.state == SynRcvd && !t.eof
    ensures PollOnly(t, Forgotten(t))
  {
  }

  lemma ResendSynPolls(t: Sock, now: U16, link: Link, k: nat)
    ensures PollOnly(t, ResendSyn(t, now, link, k).t)
  {
    var fl := if t.state == SynSent then FL_SYN else FL_SYN_ACK;
    var t1 := Restart(t, now);
    var t2 := AfterEmit(t1, fl, link(k));
    Marks(t, now, true);
    Emits(t1, fl, link(k));
    Marks(t2, now, link(k) != Ok);
    hide PollOnly, Restart, AfterEmit, SynDue;
    PollOnlyTrans(t, t1, t2);
    PollOnlyTrans(t, t2, SynDue(t2, link(k) != Ok));
  }

  lemma PollHandshakePolls(t: Sock, now: U16, link: Link, k: nat)
    requires Live(t) && (t.state == SynRcvd ==> !t.eof)
    ensures PollOnly(t, PollHandshake(t, now, link, k).t)
  {
    Ends(t);
    hide PollOnly, ResendSyn, CountRetry, GiveUp, TimerExpired;
    if t.synPending {
      ResendSynPolls(t, now, link, k);
    } else if t.retries == MAX_RETRIES {
      GivesUp(t);
    } else {
      ResendSynPolls(CountRetry(t), now, link, k);
      PollOnlyTrans(t, CountRetry(t), ResendSyn(CountRetry(t), now, link, k).t);
    }
  }

  lemma PollTimeWaitPolls(t: Sock, now: U16, link: Link, k: nat)
    ensures PollOnly(t, PollTimeWait(t, now, link, k).t)
  {
    var t1 := AckDone(t);
    var t2 := AfterEmit(t1, FL_ACK, link(k));
    var t3 := WaitFrom(t2, now);
    AckMarks(t, now);
    Emits(t1, FL_ACK, link(k));
    AckMarks(t2, now);
    Ends(t);
    Ends(t3);
    hide PollOnly, AckDone, AfterEmit, WaitFrom, ToClosed;
    PollOnlyTrans(t, t1, t2);
    PollOnlyTrans(t, t2, t3);
    PollOnlyTrans(t, t3, ToClosed(t3));
  }

  lemma RetransmitPolls(t: Sock, now: U16, link: Link, k: nat)
    requires Synced(t)
    ensures PollOnly(t, Retransmit(t, now, link, k).t)
  {
    hide PollOnly, CountRetry, Restart, OneSegment, AfterEmit, GiveUp, SegmentOf;
    if t.retries == MAX_RETRIES {
      GivesUp(t);
    } else {
      var t3 := OneSegment(Restart(CountRetry(t), now));
      RetriesPolls(t, now);
      Emits(t3, FL_DATA, link(k));
      Emits(t3, FL_FIN_ACK, link(k));
      PollOnlyTrans(t, t3, AfterEmit(t3, FL_DATA, link(k)));
      PollOnlyTrans(t, t3, AfterEmit(t3, FL_FIN_ACK, link(k)));
    }
  }

  lemma RetriesPolls(t: Sock, now: U16)
    requires t.retries < MAX_RETRIES
    ensures PollOnly(t, OneSegment(Restart(CountRetry(t), now)))
  {
    hide PollOnly, CountRetry, Restart, OneSegment;
    var t1 := CountRetry(t);
    var t2 := Restart(t1, now);
    Ends(t);
    Marks(t1, now, true);
    Ends(t2);
    PollOnlyTrans(t, t1, t2);
    PollOnlyTrans(t, t2, OneSegment(t2));
  }

  lemma NewSegment(t: Sock, n: nat, now: U16)
    requires t.inflight + n <= t.sndLen
    ensures PollOnly(t, AfterNew(t, n, now))
  {
  }

  lemma {:induction false} SendLoopPolls(t: Sock, limit: U16, now: U16, link: Link, k: nat)
    requires t.peerMss == 0 ==> limit == 0
    ensures PollOnly(t, SendLoop(t, limit, now, link, k).t)
    ensures SendLoop(t, limit, now, link, k).t.state == t.state
    decreases t.sndLen - t.inflight
  {
    Ends(t);
    if MayBurst(t, limit) {
      var n := NextSize(t, limit);
      var t1 := AfterEmit(t, FL_DATA, link(k));
      Emits(t, FL_DATA, link(k));
      if link(k) == Ok {
        var t2 := AfterNew(t1, n, now);
        NewSegment(t1, n, now);
        SendLoopPolls(t2, limit, now, link, k + 1);
        hide PollOnly, AfterEmit, AfterNew, NextSize;
        PollOnlyTrans(t, t1, t2);
        PollOnlyTrans(t, t2, SendLoop(t2, limit, now, link, k + 1).t);
      }
    }
  }

  lemma SendQueuedPolls(t: Sock, now: U16, link: Link, k: nat)
    ensures PollOnly(t, SendQueued(t, now, link, k).t)
  {
    var b := SendLoop(t, Min(t.sndWnd, t.cwnd), now, link, k);
    var due := b.t.sndLen > b.t.inflight || b.last == Pending;
    SendLoopPolls(t, Min(t.sndWnd, t.cwnd), now, link, k);
    Marks(b.t, now, due);
    hide PollOnly, SendLoop, TxDue;
    PollOnlyTrans(t, b.t, TxDue(b.t, due));
  }

  lemma FinPolls(t: Sock, now: U16)
    requires Synced(t)
    ensures PollOnly(t, AfterFin(t, now))
  {
  }

  lemma SendFinPolls(t: Sock, now: U16, link: Link, k: nat)
    requires Synced(t)
    ensures PollOnly(t, SendFin(t, now, link, k).t)
  {
    var t1 := AfterEmit(t, FL_FIN_ACK, link(k));
    Emits(t, FL_FIN_ACK, link(k));
    FinPolls(t1, now);
    hide PollOnly, AfterEmit, AfterFin;
    PollOnlyTrans(t, t1, AfterFin(t1, now));
  }

  lemma SendAckPolls(t: Sock, link: Link, k: nat)
    ensures PollOnly(t, SendAck(t, link, k).t)
  {
    var t1 := AfterEmit(t, FL_ACK, link(k));
    Emits(t, FL_ACK, link(k));
    AckMarks(t1, 0);
    hide PollOnly, AfterEmit, AckDone;
    PollOnlyTrans(t, t1, AckDone(t1));
  }

  lemma PollOnePolls(t: Sock, now: U16, link: Link, k: nat)
    requires t.state == SynRcvd ==> !t.eof
    ensures PollOnly(t, PollOne(t, now, link, k).t)
  {
    Ends(t);
    hide PollOnly, PollHandshake, PollTimeWait, Retransmit, SendQueued, SendFin, SendAck, TimerExpired;
    if t.state == SynSent || t.state == SynRcvd {
      PollHandshakePolls(t, now, link, k);
    } else if t.state == TimeWait {
      PollTimeWaitPolls(t, now, link, k);
    } else if Live(t) {
      RetransmitPolls(t, now, link, k);
      SendQueuedPolls(t, now, link, k);
      SendFinPolls(t, now, link, k);
      SendAckPolls(t, link, k);
    }
  }

  lemma PollLater(t: Sock, u: Sock)
    requires PollOnly(t, u) && t.edgeAbs <= Edge(t)
    ensures Later(t, u)
  {
  }

  // ----- main results -----

  lemma EdgeBound(t: Sock)
    requires Inv(t) && Live(t)
    ensures t.edgeAbs <= Edge(t)
  {
  }

  lemma CloseLater(t: Sock)
    ensures Later(t, CloseDown(t))
  {
    hide Later, QueueFin, ToClosed;
    ClosedLater(t);
    QueueFinLater(t);
    SameLater(t);
  }

  lemma ClosedLater(t: Sock)
    ensures Later(t, ToClosed(t))
  {
  }

  lemma QueueFinLater(t: Sock)
    ensures Later(t, QueueFin(t))
  {
  }

  lemma SameLater(t: Sock)
    ensures Later(t, t)
  {
  }

  lemma SendLater(t: Sock, data: seq<Byte>)
    ensures Later(t, SendBytes(t, data))
  {
  }

  lemma AbortLater(t: Sock, link: Link, k: nat)
    requires t.edgeAbs <= Edge(t)
    ensures Later(t, Abort(t, link, k).t)
  {
    var t1 := AfterEmit(t, FL_RST_ACK, link(k));
    assert Later(t, Cleared(t));
    assert Later(t, Cleared(t1));
    hide AfterEmit, Cleared, Later;
  }

  /** While a connection lives, whatever happens, the advertised right edge never retreats
      (RFC 9293, section 3.8.6), and neither stream, acknowledgement nor position goes back. */
  lemma NeverRetreats(t: Sock, e: Event, link: Link, k: nat)
    requires Inv(t) && Live(t)
    ensures Later(t, Apply(t, e, link, k).t)
  {
    hide Later, Inv, SendBytes, RecvBytes, CloseDown, Abort, SegmentInput, PollOne;
    EdgeBound(t);
    match e
    case ESend(data) => SendLater(t, data);
    case ERecv(cap) => RecvLater(t, cap);
    case EClose => CloseLater(t);
    case EAbort => AbortLater(t, link, k);
    case EArrive(src, seg, iss, now) => SegmentKept(t, seg, now); LaterRefl(t);
    case EPoll(now) => HandshakeEof(t); PollOnePolls(t, now, link, k); PollLater(t, PollOne(t, now, link, k).t);
    case _ => LaterRefl(t);
  }

  lemma HandshakeEof(t: Sock)
    requires Inv(t)
    ensures t.state == SynRcvd ==> !t.eof
  {
  }

  lemma LaterRefl(t: Sock)
    ensures Later(t, t)
  {
  }

  /** An in-order segment adds to the stream exactly the part of its data that fits. */
  lemma InOrderGot(t: Sock, s: Segment, now: U16)
    ensures InOrder(t, s, now).got == t.got + s.data[..Takes(t, |s.data|)]
  {
    var t1 := WithWindow(HandleAck(t, s.ackno, now), s.wnd);
    HandleAckFrame(t, s.ackno, now);
    TakeDataGot(t1, s.data);
    FinGot(TakeData(t1, s.data));
    FinGot(TakeFin(TakeData(t1, s.data)));
    hide HandleAck, TakeData, TakeFin, OurFinAcked, FinReached;
  }

  lemma TakeDataGot(t: Sock, data: seq<Byte>)
    ensures TakeData(t, data).got == t.got + data[..Takes(t, |data|)]
  {
    hide Wrap, Takes;
  }

  lemma FinGot(t: Sock)
    ensures TakeFin(t).got == t.got && OurFinAcked(t).got == t.got
  {
    hide Wrap;
  }

  /** Every promise is kept: data that starts at our position and ends inside the last advertised
      edge is taken in full by every receiving state, and nothing else is put in the ring. */
  lemma PromiseKept(t: Sock, s: Segment, now: U16)
    requires Inv(t) && Receiving(t) && s.fl.ack && !s.fl.rst && s.seqno == t.rcvNxt
    requires t.rcvAbs + |s.data| <= t.edgeAbs
    ensures SegmentInput(t, s, now).got == t.got + s.data
  {
    EdgeBound(t);
    InOrderGot(t, s, now);
    assert s.data[..|s.data|] == s.data;
    hide Inv, InOrder;
  }
}
