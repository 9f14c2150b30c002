/**
  What every step of a socket keeps, whatever the application, the link and the peer do:
  sequence accounting, the state of the FIN, the advertised window, and the flow limits.
*/
module TcpInvariants {
  import opened Words
  import opened Common
  import opened Tcp

  /** Our FIN counts once it has been sent. */
  function FinLen(t: Sock): nat { if t.finSent then 1 else 0 }

  /** The states in which our FIN is out. */
  predicate FinState(s: State) {
    s == FinWait1 || s == FinWait2 || s == Closing || s == LastAck || s == TimeWait
  }

  /** Before the connection is established nothing is queued, sent or received. */
  predicate HandshakeInv(t: Sock) {
    t.state == SynSent || t.state == SynRcvd ==>
      && t.acc == [] && t.got == [] && !t.finSent && !t.finQueued
      && t.sndUna == t.iss && t.sndNxt == Wrap(t.iss + 1)
      && !t.eof && !t.ackPending
      && (t.state == SynSent ==> t.rcvAbs == 0 && t.edgeAbs == 0)
      && (t.state == SynRcvd ==> t.rcvAbs == 1 && (t.edgeAbs == 0 || t.edgeAbs == 1 + WINDOW_CAP))
  }

  /** Sequence accounting of the sender.  Byte k of the accepted stream has sequence number
      iss + 1 + k, and a FIN comes right after the last accepted byte. */
  predicate SendInv(t: Sock) {
    Synced(t) ==>
      && (t.finSent <==> FinState(t.state))
      && (t.finSent ==> t.finQueued && t.sndLen == 0)
      && (t.state == FinWait2 ==> t.sndUna == t.sndNxt)
      && t.sndNxt == Wrap(t.iss + 1 + Retired(t) + t.inflight + FinLen(t))
      && (t.sndUna == Wrap(t.iss + 1 + Retired(t)) || (t.finSent && t.sndUna == t.sndNxt))
  }

  /** The receiver's position, counted from the peer's initial sequence number, and the
      advertised edge, which is never beyond what the ring can hold. */
  predicate RecvInv(t: Sock) {
    Live(t) && t.state != SynSent ==>
      && t.rcvNxt == Wrap(t.irs + t.rcvAbs)
      && (t.edgeAbs > 0 ==> t.advEdge == Wrap(t.irs + t.edgeAbs))
      && t.edgeAbs <= t.rcvAbs + AdvWindow(t)
      && (Receiving(t) ==> !t.eof && t.rcvAbs == 1 + |t.got|)
      && (Synced(t) && !Receiving(t) ==> t.eof && t.rcvAbs >= 2 + |t.got|)
  }

  /** No forgotten window update: a closed window with room in the ring is about to be reopened. */
  predicate UpdateInv(t: Sock) {
    Receiving(t) && t.edgeAbs > 0 ==>
      && (t.edgeAbs < t.rcvAbs ==> t.ackPending)
      && (t.edgeAbs == t.rcvAbs && RcvFree(t) > 0 ==> t.ackPending)
  }

  /** No stale window: what the peer has been told of the right edge lags by less than
      WINUPDATE_GROW bytes unless an acknowledgement is due. */
  predicate LagInv(t: Sock) {
    Receiving(t) && t.edgeAbs > 0 && !t.ackPending ==> t.rcvAbs + AdvWindow(t) < t.edgeAbs + WINUPDATE_GROW
  }

  /** The congestion window is 1 to 4 segments of the peer's size once the handshake is done. */
  predicate CwndInv(t: Sock) {
    var m := t.peerMss;
    || (t.cwnd == 0 && (t.state == SynSent || t.state == SynRcvd || !Live(t)))
    || t.cwnd == m || t.cwnd == 2 * m || t.cwnd == 3 * m || t.cwnd == 4 * m
  }

  /** The whole invariant. */
  predicate Inv(t: Sock) {
    HandshakeInv(t) && SendInv(t) && RecvInv(t) && UpdateInv(t) && LagInv(t) && CwndInv(t)
  }

  /** Of a socket without a connection little is asked. */
  lemma OverInv(t: Sock)
    requires !Live(t) && CwndInv(t)
    ensures Inv(t)
  {
  }

  // ----- calls of the application -----

  lemma ConnectInv(t: Sock, ip: Addr, port: U16, localPort: U16, iss: U32, now: U16, link: Link, k: nat)
    requires Inv(t)
    ensures Inv(Connect(t, ip, port, localPort, iss, now, link, k).t)
  {
  }

  lemma EnqueueInv(t: Sock, data: seq<Byte>)
    requires Inv(t) && CanSend(t) && t.sndLen + |data| <= SNDBUF
    ensures Inv(Enqueue(t, data))
  {
    hide Wrap;
  }

  lemma SendBytesInv(t: Sock, data: seq<Byte>)
    requires Inv(t)
    ensures Inv(SendBytes(t, data))
  {
    var n := Accepts(t, |data|);
    if n > 0 {
      EnqueueInv(t, data[..n]);
    }
  }

  /** Draining without an acknowledgement: only if the window had not closed at our position. */
  lemma DrainInv(t: Sock, n: nat)
    requires Inv(t) && n <= t.rcvCount
    requires n == 0 || !Receiving(t) || !EdgeMoved(Drain(t, n))
    ensures Inv(Drain(t, n))
  {
    hide Wrap, LagInv, AdvWindow;
    DrainLag(t, n);
    DrainWindow(t, n);
  }

  lemma DrainWindow(t: Sock, n: nat)
    requires n <= t.rcvCount
    ensures AdvWindow(t) <= AdvWindow(Drain(t, n)) && (n == 0 ==> Drain(t, n) == t)
  {
  }

  lemma DrainLag(t: Sock, n: nat)
    requires Inv(t) && n <= t.rcvCount
    requires n == 0 || !Receiving(t) || !EdgeMoved(Drain(t, n))
    ensures LagInv(Drain(t, n))
  {
    hide Wrap, HandshakeInv, SendInv, UpdateInv, CwndInv, Wf;
    if n > 0 && Receiving(t) && t.edgeAbs > 0 && !t.ackPending {
      LagExact(Drain(t, n));
    }
  }

  /** The code's test of how far the edge has moved is exact. */
  lemma LagExact(t: Sock)
    requires t.rcvNxt == Wrap(t.irs + t.rcvAbs) && t.advEdge == Wrap(t.irs + t.edgeAbs)
    requires t.edgeAbs <= t.rcvAbs + AdvWindow(t) < t.edgeAbs + M32
    ensures Wrap(Wrap(t.rcvNxt + AdvWindow(t)) - t.advEdge) == t.rcvAbs + AdvWindow(t) - t.edgeAbs
  {
    WrapAdd(t.irs + t.rcvAbs, AdvWindow(t));
    WrapDiff(t.irs + t.edgeAbs, t.rcvAbs + AdvWindow(t) - t.edgeAbs);
    hide Wrap;
  }

  lemma DrainAndAckInv(t: Sock, n: nat)
    requires Inv(t) && n <= t.rcvCount && Receiving(t)
    ensures Inv(WantAck(Drain(t, n)))
  {
    hide Wrap;
  }

  lemma RecvBytesInv(t: Sock, cap: nat)
    requires Inv(t)
    ensures Inv(RecvBytes(t, cap))
  {
    hide Inv, EdgeMoved, Drain, WantAck;
    var n := Min(cap, t.rcvCount);
    if n > 0 && Receiving(t) && EdgeMoved(Drain(t, n)) {
      DrainAndAckInv(t, n);
    } else {
      DrainInv(t, n);
    }
  }

  lemma ToClosedInv(t: Sock)
    requires Inv(t)
    ensures Inv(ToClosed(t))
  {
  }

  lemma QueueFinInv(t: Sock)
    requires Inv(t) && Synced(t)
    ensures Inv(QueueFin(t))
  {
    hide Wrap;
  }

  lemma CloseDownInv(t: Sock)
    requires Inv(t)
    ensures Inv(CloseDown(t))
  {
    if t.state == Established || t.state == CloseWait {
      QueueFinInv(t);
    } else {
      ToClosedInv(t);
    }
  }

  lemma AbortInv(t: Sock, link: Link, k: nat)
    requires Inv(t)
    ensures Inv(Abort(t, link, k).t)
  {
  }

  // ----- segments -----

  /** An acknowledgement takes effect exactly when it lies in (sndUna, sndNxt]. */
  lemma AckWindow(t: Sock, ack: U32)
    requires Inv(t) && Synced(t)
    ensures Wrap(t.sndNxt - t.sndUna) <= SNDBUF + 1
    ensures AckNew(t, ack) <==> 0 < Wrap(ack - t.sndUna) <= Wrap(t.sndNxt - t.sndUna)
  {
    hide Wrap, SeqLt, SeqLeq, Inv;
    AckSpan(t);
    SerialWindow(t.sndUna, ack, t.sndNxt);
  }

  /** What a new acknowledgement retires is exactly the distance, our FIN not counted. */
  lemma AckDistance(t: Sock, ack: U32)
    requires Inv(t) && Synced(t) && AckNew(t, ack)
    ensures !t.finSent ==> ack == Wrap(t.sndUna + Acked(t, ack))
    ensures t.finSent ==> Acked(t, ack) == 0 && ack == t.sndNxt
  {
    hide Inv, AckNew, Wrap, Wrap16;
    AckWindow(t, ack);
    AckSpan(t);
    WrapBack(t.sndUna, ack);
    SmallWrap16(Wrap(ack - t.sndUna));
    SmallWrap16(Wrap(ack - t.sndUna) - 1);
    WrapZero(ack, t.sndUna);
    WrapBack(t.sndUna, t.sndNxt);
  }

  /** What is unacknowledged: the bytes in flight, and our FIN if it is outstanding. */
  lemma AckSpan(t: Sock)
    requires Inv(t) && Synced(t)
    ensures !t.finSent ==> Wrap(t.sndNxt - t.sndUna) == t.inflight
    ensures t.finSent ==> t.inflight == 0 && Wrap(t.sndNxt - t.sndUna) == if t.sndUna == t.sndNxt then 0 else 1
  {
    WrapDiff(t.iss + 1 + Retired(t), t.inflight + FinLen(t));
  }

  lemma RetireInv(t: Sock, n: nat, ack: U32, now: U16)
    requires Inv(t) && Synced(t)
    requires if t.finSent then n == 0 && ack == t.sndNxt else n <= t.inflight && ack == Wrap(t.sndUna + n)
    ensures Inv(Retire(t, n, ack, now))
  {
    hide Wrap;
    WrapAdd(t.iss + 1 + Retired(t), n);
  }

  lemma HandleAckInv(t: Sock, ack: U32, now: U16)
    requires Inv(t) && Synced(t)
    ensures Inv(HandleAck(t, ack, now))
    ensures HandleAck(t, ack, now).state == t.state
  {
    hide Inv, Wrap, Wrap16, SeqLt, SeqLeq, Wf;
    if AckNew(t, ack) {
      AckDistance(t, ack);
      AckSpan(t);
      RetireInv(t, Acked(t, ack), ack, now);
    }
  }

  lemma PassiveOpenInv(t: Sock, src: Addr, s: Segment, iss: U32, now: U16, link: Link, k: nat)
    requires Inv(t)
    ensures Inv(PassiveOpen(t, src, s, iss, now, link, k).t)
  {
    hide Inv, Opening, AfterEmit, SynDue, Wf;
    OpeningInv(t, src, s, iss, now);
    AfterEmitInv(Opening(t, src, s, iss, now), FL_SYN_ACK, link(k));
    SynDueInv(AfterEmit(Opening(t, src, s, iss, now), FL_SYN_ACK, link(k)), link(k) != Ok);
  }

  lemma OpeningInv(t: Sock, src: Addr, s: Segment, iss: U32, now: U16)
    ensures Inv(Opening(t, src, s, iss, now)) && Opening(t, src, s, iss, now).state == SynRcvd
  {
    hide Wrap, TakeMss;
  }

  lemma RstInputInv(t: Sock, s: Segment)
    requires Inv(t)
    ensures Inv(RstInput(t, s))
  {
    hide RstInWindow, Refused, Relisten, Reset, Inv;
    RefusedInv(t);
    RelistenInv(t);
    ResetInv(t);
  }

  lemma RefusedInv(t: Sock)
    requires Inv(t)
    ensures Inv(Refused(t))
  {
    hide HandshakeInv, SendInv, RecvInv, UpdateInv, LagInv;
    assert CwndInv(Refused(t)) && !Live(Refused(t));
    hide Inv;
    OverInv(Refused(t));
  }

  lemma RelistenInv(t: Sock)
    requires Inv(t)
    ensures Inv(Relisten(t))
  {
    hide HandshakeInv, SendInv, RecvInv, UpdateInv, LagInv;
    assert CwndInv(Relisten(t)) && !Live(Relisten(t));
    hide Inv;
    OverInv(Relisten(t));
  }

  lemma ResetInv(t: Sock)
    requires Inv(t)
    ensures Inv(Reset(t))
  {
    hide HandshakeInv, SendInv, RecvInv, UpdateInv, LagInv;
    assert CwndInv(Reset(t)) && !Live(Reset(t));
    hide Inv;
    OverInv(Reset(t));
  }

  lemma SynSentInputInv(t: Sock, s: Segment)
    requires Inv(t) && t.state == SynSent
    ensures Inv(SynSentInput(t, s))
  {
    hide Inv, SynAcked;
    if s.ackno == t.sndNxt {
      SynAckedInv(t, s);
    }
  }

  lemma SynAckedInv(t: Sock, s: Segment)
    requires Inv(t) && t.state == SynSent && s.ackno == t.sndNxt
    ensures Inv(SynAcked(t, s))
  {
    hide TakeMss, Wrap, HandshakeInv, UpdateInv, LagInv, AdvWindow;
    Unsent(t);
    WrapAdd(t.iss, 1);
    var u := SynAcked(t, s);
    assert u.acc == [] && u.got == [] && !u.finSent && u.sndUna == u.sndNxt == Wrap(u.iss + 1) && u.edgeAbs == 0 && !u.eof;
    assert u.rcvAbs == 1 && u.rcvNxt == Wrap(u.irs + 1) && u.state == Established && u.cwnd == 2 * u.peerMss;
    hide SynAcked;
    FreshlyOpenInv(u);
  }

  lemma Unsent(t: Sock)
    requires Inv(t) && t.state == SynSent
    ensures t.acc == [] && t.got == [] && !t.finSent && t.sndNxt == Wrap(t.iss + 1) && t.edgeAbs == 0 && !t.eof
  {
    hide Wrap;
  }

  /** A connection on which nothing has happened yet. */
  lemma FreshlyOpenInv(t: Sock)
    requires t.state == Established && t.acc == [] && t.got == [] && !t.finSent && !t.eof
    requires t.sndUna == t.sndNxt == Wrap(t.iss + 1) && t.rcvNxt == Wrap(t.irs + 1) && t.rcvAbs == 1
    requires t.edgeAbs == 0 && t.cwnd == 2 * t.peerMss
    ensures Inv(t)
  {
    hide Wrap;
  }

  lemma EstablishInv(t: Sock, s: Segment)
    requires Inv(t) && t.state == SynRcvd && s.ackno == t.sndNxt
    ensures Inv(Establish(t, s)) && Synced(Establish(t, s))
  {
  }

  lemma PutDataInv(t: Sock, data: seq<Byte>)
    requires Inv(t) && Synced(t) && t.rcvCount + |data| <= RCVBUF
    requires data == [] || Receiving(t)
    ensures Inv(PutData(t, data))
  {
    WrapAdd(t.irs + t.rcvAbs, |data|);
    hide Wrap;
  }

  lemma TakeFinInv(t: Sock)
    requires Inv(t) && Synced(t)
    ensures Inv(TakeFin(t)) && Synced(TakeFin(t))
  {
    WrapAdd(t.irs + t.rcvAbs, 1);
    hide Wrap;
  }

  lemma OurFinAckedInv(t: Sock)
    requires Inv(t) && Synced(t)
    ensures Inv(OurFinAcked(t))
  {
  }

  lemma TakeDataInv(t: Sock, data: seq<Byte>)
    requires Inv(t) && Synced(t)
    ensures Inv(TakeData(t, data)) && TakeData(t, data).state == t.state
  {
    hide Inv, Wrap, Wf;
    if data != [] {
      PutDataInv(t, data[..Takes(t, |data|)]);
    }
  }

  lemma InOrderInv(t: Sock, s: Segment, now: U16)
    requires Inv(t) && Synced(t)
    ensures Inv(InOrder(t, s, now))
  {
    hide Inv, HandleAck, TakeData, TakeFin, OurFinAcked, Wf;
    HandleAckInv(t, s.ackno, now);
    MarksInv(HandleAck(t, s.ackno, now), WithWindow(HandleAck(t, s.ackno, now), s.wnd));
    var t1 := WithWindow(HandleAck(t, s.ackno, now), s.wnd);
    TakeDataInv(t1, s.data);
    var t2 := TakeData(t1, s.data);
    if FinReached(t1, s) {
      TakeFinInv(t2);
      OurFinAckedInv(TakeFin(t2));
    } else {
      OurFinAckedInv(t2);
    }
  }

  lemma SyncedInputInv(t: Sock, s: Segment, now: U16)
    requires Inv(t) && Synced(t)
    ensures Inv(SyncedInput(t, s, now))
  {
    hide Inv, HandleAck, InOrder, WantAck, Wf;
    WantAckInv(t);
    InOrderInv(t, s, now);
    HandleAckInv(t, s.ackno, now);
    HandleAckInv(WantAck(t), s.ackno, now);
  }

  lemma WantAckInv(t: Sock)
    requires Inv(t) && Synced(t)
    ensures Inv(WantAck(t)) && WantAck(t).state == t.state
  {
    hide Wrap;
  }

  lemma SynDueInv(t: Sock, b: bool)
    requires Inv(t)
    ensures Inv(SynDue(t, b)) && SynDue(t, b).state == t.state
  {
    MarksInv(t, SynDue(t, b));
  }

  lemma SynRcvdInputInv(t: Sock, s: Segment, now: U16)
    requires Inv(t) && t.state == SynRcvd
    ensures Inv(SynRcvdInput(t, s, now))
  {
    hide Inv, SyncedInput, SynDue, Establish, Wf, Wrap;
    if s.fl.syn {
      SynDueInv(t, true);
    } else if s.ackno == t.sndNxt {
      EstablishInv(t, s);
      SyncedInputInv(Establish(t, s), s, now);
    }
  }

  lemma SegmentInputInv(t: Sock, s: Segment, now: U16)
    requires Inv(t) && Live(t)
    ensures Inv(SegmentInput(t, s, now))
  {
    hide Inv, RstInput, SynSentInput, SynRcvdInput, SyncedInput, Wf;
    RstInputInv(t, s);
    if t.state == SynSent {
      SynSentInputInv(t, s);
    } else if t.state == SynRcvd {
      SynRcvdInputInv(t, s, now);
    } else {
      SyncedInputInv(t, s, now);
    }
  }

  lemma ArriveInv(t: Sock, src: Addr, s: Segment, iss: U32, now: U16, link: Link, k: nat)
    requires Inv(t)
    ensures Inv(Arrive(t, src, s, iss, now, link, k).t)
  {
    hide Inv, SegmentInput, PassiveOpen, Wf;
    if Live(t) {
      SegmentInputInv(t, s, now);
    }
    PassiveOpenInv(t, src, s, iss, now, link, k);
  }

  // ----- the poll -----

  /** Building a segment that carries ACK advertises everything the ring can take. */
  lemma AfterEmitInv(t: Sock, fl: Flags, r: Outcome)
    requires Inv(t) && Live(t)
    requires fl.ack ==> t.state != SynSent
    ensures Inv(AfterEmit(t, fl, r)) && AfterEmit(t, fl, r).state == t.state
  {
    hide Wrap;
    WrapAdd(t.irs + t.rcvAbs, AdvWindow(t));
  }

  /** Once a segment carrying ACK has been built, no acknowledgement is due. */
  lemma AckedInv(t: Sock, fl: Flags, r: Outcome)
    requires Inv(t) && Synced(t) && r != Pending && fl.ack
    ensures Inv(AckDone(AfterEmit(t, fl, r)))
  {
    hide Wrap;
    WrapAdd(t.irs + t.rcvAbs, AdvWindow(t));
  }

  lemma CountRetryInv(t: Sock)
    requires Inv(t) && t.retries < MAX_RETRIES
    ensures Inv(CountRetry(t)) && CountRetry(t).state == t.state
  {
    hide Wrap;
  }

  /** Flags and timers on which nothing here depends. */
  lemma MarksInv(t: Sock, u: Sock)
    requires Inv(t)
    requires u == t.(synPending := u.synPending, txPending := u.txPending, sentAt := u.sentAt,
                     timewaitAt := u.timewaitAt, sndWnd := u.sndWnd)
    ensures Inv(u) && u.state == t.state
  {
    hide Wrap;
  }

  lemma OneSegmentInv(t: Sock)
    requires Inv(t)
    ensures Inv(OneSegment(t)) && OneSegment(t).state == t.state
  {
    hide Wrap;
  }

  lemma AfterNewInv(t: Sock, n: nat, now: U16)
    requires Inv(t) && Synced(t) && 0 < n && t.inflight + n <= t.sndLen && Inv(AckDone(t))
    ensures Inv(AfterNew(t, n, now)) && AfterNew(t, n, now).state == t.state
  {
    hide Wrap;
    WrapAdd(t.iss + 1 + Retired(t) + t.inflight, n);
  }

  lemma AfterFinInv(t: Sock, now: U16)
    requires Inv(t) && (t.state == Established || t.state == CloseWait) && Inv(AckDone(t))
    requires t.finQueued && t.sndLen == 0
    ensures Inv(AfterFin(t, now))
  {
    hide Wrap;
    WrapAdd(t.iss + 1 + Retired(t), 1);
  }

  lemma ResendSynInv(t: Sock, now: U16, link: Link, k: nat)
    requires Inv(t) && (t.state == SynSent || t.state == SynRcvd)
    ensures Inv(ResendSyn(t, now, link, k).t)
  {
    MarksInv(t, Restart(t, now));
    hide Inv, AfterEmit, Restart, SynDue, Wf;
    var fl := if t.state == SynSent then FL_SYN else FL_SYN_ACK;
    AfterEmitInv(Restart(t, now), fl, link(k));
    SynDueInv(AfterEmit(Restart(t, now), fl, link(k)), link(k) != Ok);
  }

  lemma GiveUpInv(t: Sock)
    requires Inv(t) && t.retries == MAX_RETRIES && Live(t)
    ensures Inv(GiveUp(t))
  {
    hide TimedOut, Forgotten, Inv;
    TimedOutInv(t);
    ForgottenInv(t);
  }

  lemma TimedOutInv(t: Sock)
    requires Inv(t) && t.retries == MAX_RETRIES
    ensures Inv(TimedOut(t))
  {
    hide HandshakeInv, SendInv, RecvInv, UpdateInv, LagInv;
    assert CwndInv(TimedOut(t)) && !Live(TimedOut(t));
    hide Inv;
    OverInv(TimedOut(t));
  }

  lemma ForgottenInv(t: Sock)
    requires Inv(t) && t.retries == MAX_RETRIES
    ensures Inv(Forgotten(t))
  {
    hide HandshakeInv, SendInv, RecvInv, UpdateInv, LagInv;
    assert CwndInv(Forgotten(t)) && !Live(Forgotten(t));
    hide Inv;
    OverInv(Forgotten(t));
  }

  lemma PollHandshakeInv(t: Sock, now: U16, link: Link, k: nat)
    requires Inv(t) && (t.state == SynSent || t.state == SynRcvd)
    ensures Inv(PollHandshake(t, now, link, k).t)
  {
    hide Inv, ResendSyn, GiveUp, CountRetry, TimerExpired;
    if t.synPending {
      ResendSynInv(t, now, link, k);
    } else if t.retries == MAX_RETRIES {
      GiveUpInv(t);
    } else if t.retries < MAX_RETRIES {
      CountRetryInv(t);
      ResendSynInv(CountRetry(t), now, link, k);
    }
  }

  lemma AckDoneInv(t: Sock)
    requires Inv(t) && !Receiving(t)
    ensures Inv(AckDone(t)) && AckDone(t).state == t.state
  {
    hide Wrap;
  }

  lemma PollTimeWaitInv(t: Sock, now: U16, link: Link, k: nat)
    requires Inv(t) && t.state == TimeWait
    ensures Inv(PollTimeWait(t, now, link, k).t)
  {
    hide Inv, AfterEmit, AckDone, WaitFrom, ToClosed, Wf;
    AckDoneInv(t);
    AfterEmitInv(AckDone(t), FL_ACK, link(k));
    WaitFromInv(AfterEmit(AckDone(t), FL_ACK, link(k)), now);
    ToClosedInv(WaitFrom(AfterEmit(AckDone(t), FL_ACK, link(k)), now));
    ToClosedInv(t);
  }

  lemma WaitFromInv(t: Sock, now: U16)
    requires Inv(t)
    ensures Inv(WaitFrom(t, now)) && WaitFrom(t, now).state == t.state
  {
    MarksInv(t, WaitFrom(t, now));
  }

  lemma RetransmitInv(t: Sock, now: U16, link: Link, k: nat)
    requires Inv(t) && Synced(t)
    ensures Inv(Retransmit(t, now, link, k).t)
  {
    if t.retries == MAX_RETRIES {
      GiveUpInv(t);
    } else {
      CountRetryInv(t);
      MarksInv(CountRetry(t), Restart(CountRetry(t), now));
      OneSegmentInv(Restart(CountRetry(t), now));
      hide Inv, AfterEmit, CountRetry, Restart, OneSegment, Wf;
      AfterEmitInv(OneSegment(Restart(CountRetry(t), now)), if t.inflight > 0 then FL_DATA else FL_FIN_ACK, link(k));
    }
  }

  /** The send loop keeps the invariant and what the peer and the congestion window allow. */
  lemma {:induction false} SendLoopInv(t: Sock, limit: U16, now: U16, link: Link, k: nat)
    requires Inv(t) && Synced(t) && (t.peerMss == 0 ==> limit == 0)
    ensures var r := SendLoop(t, limit, now, link, k); Inv(r.t) && r.t.state == t.state
    decreases t.sndLen - t.inflight
  {
    hide Inv, AfterEmit, AfterNew, NextSize, Wf;
    if MayBurst(t, limit) {
      AfterEmitInv(t, FL_DATA, link(k));
      var t1 := AfterEmit(t, FL_DATA, link(k));
      AfterEmitFrame(t, FL_DATA, link(k));
      if link(k) == Ok {
        AckedInv(t, FL_DATA, Ok);
        AfterNewInv(t1, NextSize(t, limit), now);
        AfterNewFrame(t1, NextSize(t, limit), now);
        SendLoopInv(AfterNew(t1, NextSize(t, limit), now), limit, now, link, k + 1);
      }
    }
  }

  /** Emitting touches nothing but the advertised edge. */
  lemma AfterEmitFrame(t: Sock, fl: Flags, r: Outcome)
    ensures var u := AfterEmit(t, fl, r); t == u.(advEdge := t.advEdge, edgeAbs := t.edgeAbs)
  {
  }

  lemma AfterNewFrame(t: Sock, n: nat, now: U16)
    requires t.inflight + n <= t.sndLen
    ensures var u := AfterNew(t, n, now);
            u.sndLen == t.sndLen && u.inflight == t.inflight + n && u.peerMss == t.peerMss && u.acc == t.acc
  {
  }

  lemma SendQueuedInv(t: Sock, now: U16, link: Link, k: nat)
    requires Inv(t) && Synced(t)
    ensures Inv(SendQueued(t, now, link, k).t)
  {
    hide Inv, SendLoop;
    var limit := Min(t.sndWnd, t.cwnd);
    SendLoopInv(t, limit, now, link, k);
    var b := SendLoop(t, limit, now, link, k);
    MarksInv(b.t, TxDue(b.t, b.t.sndLen > b.t.inflight || b.last == Pending));
  }

  lemma StillOpen(t: Sock)
    requires Inv(t) && Synced(t) && !t.finSent
    ensures t.state == Established || t.state == CloseWait
  {
  }

  lemma SendFinInv(t: Sock, now: U16, link: Link, k: nat)
    requires Inv(t) && Synced(t) && t.finQueued && !t.finSent && t.sndLen == 0
    ensures Inv(SendFin(t, now, link, k).t)
  {
    hide Inv, AfterEmit, AfterFin, Wf;
    AfterEmitInv(t, FL_FIN_ACK, link(k));
    AfterEmitFrame(t, FL_FIN_ACK, link(k));
    StillOpen(t);
    if link(k) == Ok {
      AckedInv(t, FL_FIN_ACK, Ok);
      AfterFinInv(AfterEmit(t, FL_FIN_ACK, link(k)), now);
    }
  }

  lemma SendAckInv(t: Sock, link: Link, k: nat)
    requires Inv(t) && Synced(t)
    ensures Inv(SendAck(t, link, k).t)
  {
    hide Inv, AfterEmit, AckDone, Wf;
    AfterEmitInv(t, FL_ACK, link(k));
    if link(k) != Pending {
      AckedInv(t, FL_ACK, link(k));
    }
  }

  lemma PollOneInv(t: Sock, now: U16, link: Link, k: nat)
    requires Inv(t)
    ensures Inv(PollOne(t, now, link, k).t)
  {
    hide Inv, PollHandshake, PollTimeWait, Retransmit, SendQueued, SendFin, SendAck, TimerExpired, Wf;
    if t.state == SynSent || t.state == SynRcvd {
      PollHandshakeInv(t, now, link, k);
    } else if t.state == TimeWait {
      PollTimeWaitInv(t, now, link, k);
    } else if Live(t) {
      RetransmitInv(t, now, link, k);
      SendQueuedInv(t, now, link, k);
      if t.finQueued && !t.finSent && t.sndLen == 0 {
        SendFinInv(t, now, link, k);
      }
      SendAckInv(t, link, k);
    }
  }

  /** Every step of a socket keeps the invariant. */
  lemma ApplyInv(t: Sock, e: Event, link: Link, k: nat)
    requires Inv(t)
    ensures Inv(Apply(t, e, link, k).t)
  {
    hide Inv, Connect, ListenOn, SendBytes, RecvBytes, CloseDown, Abort, Arrive, PollOne, Wf;
    match e
    case EConnect(ip, port, localPort, iss, now) => ConnectInv(t, ip, port, localPort, iss, now, link, k);
    case EListen(port) => ListenInv(t, port);
    case ESend(data) => SendBytesInv(t, data);
    case ERecv(cap) => RecvBytesInv(t, cap);
    case EClose => CloseDownInv(t);
    case EAbort => AbortInv(t, link, k);
    case EArrive(src, seg, iss, now) => ArriveInv(t, src, seg, iss, now, link, k);
    case EPoll(now) => PollOneInv(t, now, link, k);
  }

  lemma ListenInv(t: Sock, port: U16)
    requires Inv(t)
    ensures Inv(ListenOn(t, port))
  {
  }
}
