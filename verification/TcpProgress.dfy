/**
  What is achieved: which segment establishes a connection, what an acknowledgement and an in-order
  segment change, what a poll sends.  Nothing here bounds what may happen; it says what does happen.
*/
module TcpProgress {
  import opened Words
  import opened Common
  import opened Tcp
  import opened TcpInvariants
  import opened TcpSegments
  import opened TcpWindow
  import opened TcpClosing
  import Net = TcpNetwork
  import Runs = TcpRuns

  // ----- the handshake -----

  /** A connecting socket is established by a SYN|ACK for its SYN and by nothing else; it then stands
      right behind the peer's SYN with its own acknowledged, and owes the last ACK. */
  lemma AnswerEstablishes(t: Sock, s: Segment, now: U16)
    requires Inv(t) && t.state == SynSent && !s.fl.rst
    ensures var u := SegmentInput(t, s, now);
            && (u.state == Established <==> s.fl.syn && s.fl.ack && s.ackno == t.sndNxt)
            && (u.state != Established ==> u == t)
            && (u.state == Established ==>
                  && u.irs == s.seqno && u.rcvNxt == Wrap(s.seqno + 1) && u.sndUna == s.ackno == u.sndNxt
                  && u.sndWnd == s.wnd && u.peerMss == TakeMss(s.opts, t.peerMss) && u.cwnd == 2 * u.peerMss
                  && u.ackPending && u.retries == 0 && u.rto == RTO_INITIAL)
  {
    hide Inv, SynAcked, TakeMss;
    SynAckedFields(t, s);
  }

  lemma SynAckedFields(t: Sock, s: Segment)
    ensures var u := SynAcked(t, s);
            && u.state == Established && u.irs == s.seqno && u.rcvNxt == Wrap(s.seqno + 1) && u.sndUna == s.ackno
            && u.sndNxt == t.sndNxt && u.sndWnd == s.wnd && u.peerMss == TakeMss(s.opts, t.peerMss)
            && u.cwnd == 2 * u.peerMss && u.ackPending && u.retries == 0 && u.rto == RTO_INITIAL
  {
    hide Wrap, TakeMss;
  }

  /** A half-open listener leaves SYN_RCVD, without an RST, by the ACK of its SYN that stands right behind the
      peer's, and by nothing else; the peer's SYN once more makes the SYN|ACK due again. */
  lemma AckEstablishes(t: Sock, s: Segment, now: U16)
    requires Inv(t) && t.state == SynRcvd && !s.fl.rst
    ensures var u := SegmentInput(t, s, now);
            && (u.state != SynRcvd <==> !s.fl.syn && s.fl.ack && s.ackno == t.sndNxt && s.seqno == t.rcvNxt)
            && (u.state != SynRcvd ==> Synced(Establish(t, s)) && u == SegmentInput(Establish(t, s), s, now))
            && (u.state == SynRcvd ==> u == SynDue(t, t.synPending || (s.fl.syn && Wrap(s.seqno + 1) == t.rcvNxt)))
  {
    hide Inv, SyncedInput, Establish, Wrap;
    SynDueAlready(t);
    if s.ackno == t.sndNxt {
      EstablishInv(t, s);
      EstablishedFields(t, s);
      Net.SyncedInputRole(Establish(t, s), s, now);
    }
  }

  lemma SynDueAlready(t: Sock)
    ensures SynDue(t, t.synPending) == t && SynDue(t, true).state == t.state
  {
  }

  lemma EstablishedFields(t: Sock, s: Segment)
    ensures var u := Establish(t, s);
            && u.state == Established && u.sndUna == s.ackno && u.cwnd == 2 * u.peerMss && u.retries == 0
            && u.rto == RTO_INITIAL && u.peerMss == t.peerMss && u.sndNxt == t.sndNxt && u.rcvNxt == t.rcvNxt
  {
  }

  /** Whatever begins a connection begins it with nothing flagged, queued, received or owed, whatever the socket
      was used for before. */
  lemma OpensClean(t: Sock, e: Event, link: Link, k: nat)
    requires Runs.Opens(t, e)
    ensures var u := Apply(t, e, link, k).t; Clean(u) && (!e.EArrive? ==> u.peerMss == 536)
  {
    hide Clean, Connect, ListenOn, PassiveOpen, SegmentInput;
    match e
    case EConnect(ip, port, localPort, iss, now) => ConnectClean(t, ip, port, localPort, iss, now, link, k);
    case EListen(port) => ListenClean(t, port);
    case EArrive(src, seg, iss, now) => OpenClean(t, src, seg, iss, now, link, k);
    case _ =>
  }

  lemma ConnectClean(t: Sock, ip: Addr, port: U16, localPort: U16, iss: U32, now: U16, link: Link, k: nat)
    requires t.state == Closed
    ensures var u := Connect(t, ip, port, localPort, iss, now, link, k).t; Clean(u) && u.peerMss == 536
  {
    hide AfterEmit, SynDue, ResetCounters, Wrap;
    CleanReset(t.(remoteIp := ip, remotePort := port, localPort := localPort,
                  iss := iss, sndUna := iss, sndNxt := Wrap(iss + 1), rcvNxt := 0));
    CleanEmit(Connecting(t, ip, port, localPort, iss, now), FL_SYN, link(k), link(k) != Ok);
  }

  lemma ListenClean(t: Sock, port: U16)
    requires t.state == Closed && port != 0
    ensures Clean(ListenOn(t, port)) && ListenOn(t, port).peerMss == 536
  {
    hide ResetCounters;
    CleanReset(t.(localPort := port, remotePort := 0));
  }

  lemma OpenClean(t: Sock, src: Addr, s: Segment, iss: U32, now: U16, link: Link, k: nat)
    ensures Clean(PassiveOpen(t, src, s, iss, now, link, k).t)
  {
    hide AfterEmit, SynDue, ResetCounters, Wrap, TakeMss;
    CleanReset(t.(remoteIp := src, remotePort := s.sport));
    CleanEmit(Opening(t, src, s, iss, now), FL_SYN_ACK, link(k), link(k) != Ok);
  }

  /** Nothing flagged, queued, received or owed. */
  predicate Clean(t: Sock) {
    && !t.eof && !t.reset && !t.timeout && !t.refused && t.acc == [] && t.got == [] && t.sndLen == 0
    && t.rcvCount == 0 && !t.finQueued && !t.finSent && !t.ackPending && !t.txPending && t.retries == 0
  }

  lemma CleanReset(t: Sock)
    ensures Clean(ResetCounters(t)) && ResetCounters(t).peerMss == 536
  {
  }

  lemma CleanEmit(t: Sock, fl: Flags, r: Outcome, b: bool)
    requires Clean(t)
    ensures Clean(SynDue(AfterEmit(t, fl, r), b)) && SynDue(AfterEmit(t, fl, r), b).peerMss == t.peerMss
  {
    AfterEmitFrame(t, fl, r);
    hide AfterEmit;
  }

  /** An RST during the handshake: a connecting socket is refused by one that acknowledges its SYN and by no
      other; a half-open listener listens again, with nothing flagged. */
  lemma HandshakeReset(t: Sock, s: Segment, now: U16)
    requires (t.state == SynSent || t.state == SynRcvd) && s.fl.rst
    ensures var u := SegmentInput(t, s, now);
            if t.state == SynRcvd then u.state == Listen && !u.eof && !u.reset && !u.timeout && !u.refused
            else if s.fl.ack && s.ackno == t.sndNxt then u.state == Closed && u.refused && u.reset
            else u == t
  {
    hide Relisten, Refused;
    RelistenFields(t);
    RefusedFields(t);
  }

  lemma RelistenFields(t: Sock)
    ensures var u := Relisten(t); u.state == Listen && !u.eof && !u.reset && !u.timeout && !u.refused
  {
  }

  lemma RefusedFields(t: Sock)
    ensures var u := Refused(t); u.state == Closed && u.refused && u.reset
  {
  }

  /** An abort sends one RST, at the next sequence number, exactly if there is a connection to end; the socket is
      closed in any case, and what has been received can still be read. */
  lemma AbortSends(t: Sock, link: Link, k: nat)
    ensures var r := Abort(t, link, k);
            && r.t.state == Closed && RecvQueue(r.t) == RecvQueue(t) && r.t.sndLen == 0
            && (r.calls > k <==> Live(t) && t.state != TimeWait)
            && (r.sent != [] <==> r.calls > k && link(k) == Ok)
            && (r.sent != [] ==> |r.sent| == 1 && r.sent[0].fl == FL_RST_ACK && r.sent[0].seqno == t.sndNxt)
  {
    hide AfterEmit, Cleared;
    AfterEmitFrame(t, FL_RST_ACK, link(k));
    ClearedFields(t);
    ClearedFields(AfterEmit(t, FL_RST_ACK, link(k)));
  }

  lemma ClearedFields(t: Sock)
    ensures var u := Cleared(t); u.state == Closed && u.got == t.got && u.rcvCount == t.rcvCount && u.sndLen == 0
  {
  }

  // ----- acknowledgements -----

  /** The part of the send side that only an acknowledgement changes. */
  predicate SameSend(t: Sock, u: Sock) {
    && u.sndUna == t.sndUna && u.retries == t.retries && u.rto == t.rto && u.sentAt == t.sentAt && u.cwnd == t.cwnd
    && u.sndLen == t.sndLen && u.inflight == t.inflight && u.sndNxt == t.sndNxt && u.finSent == t.finSent
    && u.peerMss == t.peerMss
  }

  /** What a new acknowledgement does to it. */
  predicate AckedBy(t: Sock, u: Sock, ack: U32, now: U16) {
    && u.sndUna == ack && u.retries == 0 && u.rto == RTO_INITIAL && u.sentAt == now
    && u.cwnd == Min(t.cwnd + t.peerMss, CWND_MAX * t.peerMss)
    && u.sndLen == t.sndLen - Acked(t, ack) && u.inflight == t.inflight - Acked(t, ack)
    && u.sndNxt == t.sndNxt && u.finSent == t.finSent && u.peerMss == t.peerMss
  }

  lemma SameSendTrans(t: Sock, u: Sock, v: Sock)
    requires SameSend(t, u) && SameSend(u, v)
    ensures SameSend(t, v)
  {
  }

  lemma AckedByTrans(t: Sock, u: Sock, v: Sock, ack: U32, now: U16)
    requires AckedBy(t, u, ack, now) && SameSend(u, v)
    ensures AckedBy(t, v, ack, now)
  {
    hide Acked;
  }

  lemma HandleAckSend(t: Sock, ack: U32, now: U16)
    requires Inv(t) && Synced(t)
    ensures var u := HandleAck(t, ack, now);
            if AckNew(t, ack) then AckedBy(t, u, ack, now) else u == t
  {
    hide AckNew, Acked, GrownCwnd, Inv;
    Grown(t);
  }

  /** One segment more, up to four. */
  lemma Grown(t: Sock)
    requires Inv(t) && Synced(t)
    ensures GrownCwnd(t) == Min(t.cwnd + t.peerMss, CWND_MAX * t.peerMss)
  {
    hide HandshakeInv, SendInv, RecvInv, UpdateInv, LagInv;
    SmallWrap16(t.peerMss * CWND_MAX);
    if t.cwnd + t.peerMss < 0x1_0000 {
      SmallWrap16(t.cwnd + t.peerMss);
    }
    hide Wrap16;
  }

  lemma MarksSend(t: Sock, wnd: U16)
    ensures SameSend(t, WithWindow(t, wnd)) && SameSend(t, WantAck(t)) && SameSend(t, t)
  {
  }

  lemma DataSend(t: Sock, data: seq<Byte>)
    ensures SameSend(t, TakeData(t, data))
  {
    hide PutData, SameSend;
    PutSend(t, data[..Takes(t, |data|)]);
    MarksSend(t, 0);
  }

  lemma PutSend(t: Sock, data: seq<Byte>)
    requires t.rcvCount + |data| <= RCVBUF
    ensures SameSend(t, PutData(t, data))
  {
    hide Wrap;
  }

  lemma FinSend(t: Sock)
    ensures SameSend(t, TakeFin(t)) && SameSend(t, OurFinAcked(t))
  {
    hide Wrap;
  }

  lemma InOrderSend(t: Sock, s: Segment, now: U16)
    ensures SameSend(HandleAck(t, s.ackno, now), InOrder(t, s, now))
  {
    hide HandleAck, WithWindow, TakeData, TakeFin, OurFinAcked, FinReached, SameSend;
    var t0 := HandleAck(t, s.ackno, now);
    var t1 := WithWindow(t0, s.wnd);
    var t2 := TakeData(t1, s.data);
    var t3 := if FinReached(t1, s) then TakeFin(t2) else t2;
    MarksSend(t0, s.wnd);
    DataSend(t1, s.data);
    SameSendTrans(t0, t1, t2);
    FinSend(t2);
    MarksSend(t2, 0);
    SameSendTrans(t0, t2, t3);
    FinSend(t3);
    SameSendTrans(t0, t3, OurFinAcked(t3));
  }

  /** A segment brings a new acknowledgement. */
  predicate Advances(t: Sock, s: Segment) { !s.fl.rst && s.fl.ack && AckNew(t, s.ackno) }

  /** Past the handshake a new acknowledgement, in order or not, retires what it covers, restarts the timer
      without retries and makes the congestion window one segment larger until it is four; any
      other segment changes nothing of this. */
  lemma AckTaken(t: Sock, s: Segment, now: U16)
    requires Inv(t) && Synced(t)
    ensures var u := SegmentInput(t, s, now);
            if Advances(t, s) then AckedBy(t, u, s.ackno, now) else SameSend(t, u)
  {
    hide Inv, HandleAck, InOrder, WantAck, AckNew, RstInput, SameSend, AckedBy;
    MarksSend(t, 0);
    if s.fl.rst {
      RstSend(t, s);
    } else if s.fl.ack {
      if s.seqno == t.rcvNxt {
        HandleAckSend(t, s.ackno, now);
        InOrderSend(t, s, now);
        if AckNew(t, s.ackno) {
          AckedByTrans(t, HandleAck(t, s.ackno, now), InOrder(t, s, now), s.ackno, now);
        }
      } else {
        OutOfOrderSend(t, s, now);
      }
    }
  }

  lemma RstSend(t: Sock, s: Segment)
    requires Synced(t)
    ensures SameSend(t, RstInput(t, s))
  {
    hide RstInWindow, Reset, SameSend;
    ResetSend(t);
    MarksSend(t, 0);
  }

  lemma ResetSend(t: Sock)
    ensures SameSend(t, Reset(t))
  {
  }

  lemma OutOfOrderSend(t: Sock, s: Segment, now: U16)
    requires Inv(t) && Synced(t)
    ensures var u := HandleAck(if s.data != [] || s.fl.fin then WantAck(t) else t, s.ackno, now);
            if AckNew(t, s.ackno) then AckedBy(t, u, s.ackno, now) else SameSend(t, u)
  {
    hide Inv, AckNew, HandleAck, WantAck;
    HandleAckSend(t, s.ackno, now);
    WantAckInv(t);
    HandleAckSend(WantAck(t), s.ackno, now);
    WantedSame(t, s.ackno);
    MarksSend(t, 0);
  }

  lemma WantedSame(t: Sock, ack: U32)
    ensures AckNew(WantAck(t), ack) == AckNew(t, ack) && Acked(WantAck(t), ack) == Acked(t, ack)
    ensures WantAck(t).cwnd == t.cwnd && WantAck(t).peerMss == t.peerMss && WantAck(t).sndLen == t.sndLen
    ensures WantAck(t).inflight == t.inflight && WantAck(t).sndNxt == t.sndNxt && WantAck(t).finSent == t.finSent
  {
    hide SeqLt, SeqLeq, Wrap, Wrap16;
  }

  // ----- data and FINs -----

  /** The states of RFC 9293, figure 5, past the handshake: `fin` that the peer's FIN is taken, `acked` that ours
      is acknowledged. */
  function NextState(s: State, fin: bool, acked: bool): State {
    match s
    case Established => if fin then CloseWait else Established
    case FinWait1 =>
      if fin && acked then TimeWait else if fin then Closing else if acked then FinWait2 else FinWait1
    case FinWait2 => if fin then TimeWait else FinWait2
    case Closing => if acked then TimeWait else Closing
    case LastAck => if acked then Closed else LastAck
    case _ => s
  }

  /** Our FIN is acknowledged once the segment's acknowledgement has been read. */
  predicate FinAckedBy(t: Sock, s: Segment) {
    t.finSent && (if AckNew(t, s.ackno) then s.ackno else t.sndUna) == t.sndNxt
  }

  /** An in-order segment puts what fits of its data behind what was received, takes its FIN unless the ring cut
      the data before it short, moves the position by exactly that, believes its window, owes an
      acknowledgement for anything that takes sequence space, and leads to the state of the standard. */
  lemma InOrderTaken(t: Sock, s: Segment, now: U16)
    requires Inv(t) && Synced(t) && s.fl.ack && !s.fl.rst && s.seqno == t.rcvNxt
    ensures var u, n := SegmentInput(t, s, now), Takes(t, |s.data|);
            var fin := s.fl.fin && (Receiving(t) ==> n == |s.data|);
            && u.got == t.got + s.data[..n] && u.rcvCount == t.rcvCount + n
            && (if Receiving(t) then n == |s.data| || u.rcvCount == RCVBUF else n == 0)
            && u.rcvNxt == (if fin then Wrap(t.rcvNxt + n + 1) else Wrap(t.rcvNxt + n))
            && u.eof == (t.eof || fin) && u.ackPending == (t.ackPending || s.data != [] || fin)
            && u.sndWnd == s.wnd && u.state == NextState(t.state, fin, FinAckedBy(t, s))
  {
    hide Inv, AckNew, RstInput, Wrap, TakeData, TakeFin, OurFinAcked, HandleAck, WithWindow, FinAckedBy, NextState,
         Takes, FinState, FinReached, Receiving, InOrder;
    InOrderParts(t, s, now);
    var t1 := WithWindow(HandleAck(t, s.ackno, now), s.wnd);
    var t2 := TakeData(t1, s.data);
    WindowTaken(t, s, now);
    DataTaken(t, s, now);
    AllOrFull(t, |s.data|);
    BothFins(t, s);
    if FinReached(t1, s) {
      FinTaken(t2);
      WrapAdd(t.rcvNxt + Takes(t, |s.data|), 1);
    } else {
      StateOf(t2);
    }
  }

  lemma AllOrFull(t: Sock, len: nat)
    ensures if Receiving(t) then Takes(t, len) == len || t.rcvCount + Takes(t, len) == RCVBUF else Takes(t, len) == 0
  {
  }

  lemma InOrderParts(t: Sock, s: Segment, now: U16)
    requires Synced(t) && s.fl.ack && !s.fl.rst && s.seqno == t.rcvNxt
    ensures var t1 := WithWindow(HandleAck(t, s.ackno, now), s.wnd);
            var t2 := TakeData(t1, s.data);
            SegmentInput(t, s, now) == OurFinAcked(if FinReached(t1, s) then TakeFin(t2) else t2)
  {
    hide HandleAck, WithWindow, TakeData, TakeFin, OurFinAcked, FinReached, RstInput;
  }

  /** One transition after the other is one transition for both. */
  lemma BothFins(t: Sock, s: Segment)
    requires Inv(t) && Synced(t)
    ensures NextState(NextState(t.state, true, false), false, FinAckedBy(t, s)) == NextState(t.state, true, FinAckedBy(t, s))
  {
    FinOnlySent(t);
    hide Inv, AckNew;
  }

  /** Once the acknowledgement and the window have been read. */
  lemma WindowTaken(t: Sock, s: Segment, now: U16)
    requires Inv(t) && Synced(t)
    ensures var t1 := WithWindow(HandleAck(t, s.ackno, now), s.wnd);
            && SameReceive(t, t1) && t1.sndWnd == s.wnd && t1.finSent == t.finSent
            && (t1.finSent && t1.sndUna == t1.sndNxt <==> FinAckedBy(t, s))
            && FinReached(t1, s) == (s.fl.fin && (Receiving(t) ==> Takes(t, |s.data|) == |s.data|))
  {
    hide Inv, HandleAck, WithWindow, AckNew, SendSideOnly;
    var t0 := HandleAck(t, s.ackno, now);
    HandleAckFrame(t, s.ackno, now);
    HandleAckSend(t, s.ackno, now);
    SideKept(t, t0);
    WindowFields(t0, s.wnd);
  }

  /** Once the data has been put in the ring. */
  lemma DataTaken(t: Sock, s: Segment, now: U16)
    requires Inv(t) && Synced(t)
    ensures var t2, n := TakeData(WithWindow(HandleAck(t, s.ackno, now), s.wnd), s.data), Takes(t, |s.data|);
            && t2.got == t.got + s.data[..n] && t2.rcvCount == t.rcvCount + n && t2.rcvNxt == Wrap(t.rcvNxt + n)
            && t2.eof == t.eof && t2.ackPending == (t.ackPending || s.data != []) && t2.state == t.state
            && t2.sndWnd == s.wnd && (t2.finSent && t2.sndUna == t2.sndNxt <==> FinAckedBy(t, s))
  {
    hide Inv, HandleAck, WithWindow, TakeData, FinAckedBy, Wrap;
    var t1 := WithWindow(HandleAck(t, s.ackno, now), s.wnd);
    WindowTaken(t, s, now);
    DataFields(t1, s.data);
    DataSend(t1, s.data);
  }

  /** Once the FIN has been taken, too. */
  lemma FinTaken(t: Sock)
    ensures var u := OurFinAcked(TakeFin(t));
            && u.got == t.got && u.rcvCount == t.rcvCount && u.rcvNxt == Wrap(t.rcvNxt + 1) && u.eof && u.ackPending
            && u.sndWnd == t.sndWnd
            && u.state == NextState(NextState(t.state, true, false), false, t.finSent && t.sndUna == t.sndNxt)
  {
    hide TakeFin, OurFinAcked, Wrap, NextState;
    FinFields(t);
    FinSend(t);
    StateOf(TakeFin(t));
  }

  /** The receiving side is untouched. */
  predicate SameReceive(t: Sock, u: Sock) {
    && u.got == t.got && u.rcvCount == t.rcvCount && u.rcvNxt == t.rcvNxt && u.eof == t.eof
    && u.ackPending == t.ackPending && u.state == t.state
  }

  lemma SideKept(t: Sock, u: Sock)
    requires SendSideOnly(t, u)
    ensures SameReceive(t, u) && u.finSent == t.finSent && u.sndNxt == t.sndNxt
  {
  }

  lemma WindowFields(t: Sock, wnd: U16)
    ensures var u := WithWindow(t, wnd);
            && SameReceive(t, u) && u.sndWnd == wnd && u.sndUna == t.sndUna && u.sndNxt == t.sndNxt
            && u.finSent == t.finSent
  {
  }

  lemma DataFields(t: Sock, data: seq<Byte>)
    ensures var u, n := TakeData(t, data), Takes(t, |data|);
            && u.got == t.got + data[..n] && u.rcvCount == t.rcvCount + n && u.rcvNxt == Wrap(t.rcvNxt + n)
            && u.eof == t.eof && u.ackPending == (t.ackPending || data != []) && u.state == t.state
            && u.sndWnd == t.sndWnd
  {
    hide PutData;
    var n := Takes(t, |data|);
    PutFields(t, data[..n]);
    if data == [] {
      WrapSame(t.rcvNxt);
    }
    hide Wrap, Takes;
  }

  lemma WrapSame(x: U32)
    ensures Wrap(x + 0) == x
  {
  }

  lemma PutFields(t: Sock, data: seq<Byte>)
    requires t.rcvCount + |data| <= RCVBUF
    ensures var u := PutData(t, data);
            && u.got == t.got + data && u.rcvCount == t.rcvCount + |data| && u.rcvNxt == Wrap(t.rcvNxt + |data|)
            && u.eof == t.eof && u.ackPending && u.state == t.state && u.sndWnd == t.sndWnd
  {
    hide Wrap;
  }

  lemma FinFields(t: Sock)
    ensures var u := TakeFin(t);
            && u.got == t.got && u.rcvCount == t.rcvCount && u.rcvNxt == Wrap(t.rcvNxt + 1) && u.eof && u.ackPending
            && u.sndWnd == t.sndWnd && u.state == NextState(t.state, true, false)
  {
    hide Wrap;
  }

  lemma StateOf(t: Sock)
    ensures var u := OurFinAcked(t);
            && u.state == NextState(t.state, false, t.finSent && t.sndUna == t.sndNxt)
            && u.got == t.got && u.rcvCount == t.rcvCount && u.rcvNxt == t.rcvNxt && u.eof == t.eof
            && u.ackPending == t.ackPending && u.sndWnd == t.sndWnd
  {
  }

  lemma FinOnlySent(t: Sock)
    requires Inv(t) && Synced(t)
    ensures t.finSent <==> FinState(t.state)
  {
    hide Wrap;
  }

  /** Any other segment past the handshake that is not an RST is not taken: with an acknowledgement and data or
      a FIN it is answered, and that is all. */
  lemma OthersNotTaken(t: Sock, s: Segment, now: U16)
    requires Synced(t) && !s.fl.rst && (!s.fl.ack || s.seqno != t.rcvNxt)
    ensures var u := SegmentInput(t, s, now);
            && u.got == t.got && u.rcvCount == t.rcvCount && u.rcvNxt == t.rcvNxt && u.eof == t.eof
            && u.state == t.state && u.sndWnd == t.sndWnd
            && u.ackPending == (t.ackPending || (s.fl.ack && (s.data != [] || s.fl.fin)))
  {
    hide HandleAck, InOrder, WantAck, RstInput;
    var t0 := if s.data != [] || s.fl.fin then WantAck(t) else t;
    HandleAckFrame(t0, s.ackno, now);
    WantFields(t);
    SideWindow(t0, HandleAck(t0, s.ackno, now));
  }

  lemma WantFields(t: Sock)
    ensures var u := WantAck(t);
            && u.got == t.got && u.rcvCount == t.rcvCount && u.rcvNxt == t.rcvNxt && u.eof == t.eof
            && u.state == t.state && u.sndWnd == t.sndWnd && u.ackPending
  {
  }

  lemma SideWindow(t: Sock, u: Sock)
    requires SendSideOnly(t, u)
    ensures SameReceive(t, u) && u.sndWnd == t.sndWnd
  {
  }

  // ----- polls -----

  lemma {:induction false} SendLoopFlags(t: Sock, limit: U16, now: U16, link: Link, k: nat)
    requires t.peerMss == 0 ==> limit == 0
    ensures forall s :: s in SendLoop(t, limit, now, link, k).sent ==> s.fl == FL_DATA
    decreases t.sndLen - t.inflight
  {
    if MayBurst(t, limit) && link(k) == Ok {
      hide AfterEmit, AfterNew, NextSize, Wf;
      AfterEmitFrame(t, FL_DATA, Ok);
      AfterNewFrame(AfterEmit(t, FL_DATA, Ok), NextSize(t, limit), now);
      SendLoopFlags(AfterNew(AfterEmit(t, FL_DATA, Ok), NextSize(t, limit), now), limit, now, link, k + 1);
    }
  }

  /** The loop makes an attempt exactly if queued data fits the limit, and what it offers first is the next part
      of the queue. */
  lemma SendLoopFirst(t: Sock, limit: U16, now: U16, link: Link, k: nat)
    requires t.peerMss == 0 ==> limit == 0
    ensures var r := SendLoop(t, limit, now, link, k);
            && (r.calls > k <==> MayBurst(t, limit)) && r.calls >= k
            && (MayBurst(t, limit) && link(k) == Ok ==>
                  && r.sent != [] && r.sent[0].fl == FL_DATA && r.sent[0].seqno == t.sndNxt
                  && r.sent[0].data == SendQueue(t)[t.inflight..t.inflight + NextSize(t, limit)]
                  && r.t.inflight > 0 && (t.inflight == 0 ==> r.t.sentAt == now))
  {
    hide AfterEmit, AfterNew, NextSize;
    if MayBurst(t, limit) && link(k) == Ok {
      AfterEmitFrame(t, FL_DATA, Ok);
      AfterNewFrame(AfterEmit(t, FL_DATA, Ok), NextSize(t, limit), now);
      var t2 := AfterNew(AfterEmit(t, FL_DATA, Ok), NextSize(t, limit), now);
      TimerStarts(AfterEmit(t, FL_DATA, Ok), NextSize(t, limit), now);
      CallsGrow(t2, limit, now, link, k + 1);
      TimerKept(t2, limit, now, link, k + 1);
    }
  }

  lemma TimerStarts(t: Sock, n: nat, now: U16)
    requires t.inflight + n <= t.sndLen
    ensures AfterNew(t, n, now).sentAt == if t.inflight == 0 then now else t.sentAt
  {
    hide Wrap;
  }

  lemma {:induction false} TimerKept(t: Sock, limit: U16, now: U16, link: Link, k: nat)
    requires t.inflight > 0 && (t.peerMss == 0 ==> limit == 0)
    ensures var u := SendLoop(t, limit, now, link, k).t; u.inflight > 0 && u.sentAt == t.sentAt
    decreases t.sndLen - t.inflight
  {
    hide AfterEmit, AfterNew, NextSize, Wf, SegmentOf;
    AfterEmitFrame(t, FL_DATA, link(k));
    if MayBurst(t, limit) && link(k) == Ok {
      AfterNewFrame(AfterEmit(t, FL_DATA, Ok), NextSize(t, limit), now);
      TimerStarts(AfterEmit(t, FL_DATA, Ok), NextSize(t, limit), now);
      TimerKept(AfterNew(AfterEmit(t, FL_DATA, Ok), NextSize(t, limit), now), limit, now, link, k + 1);
    }
  }

  lemma {:induction false} CallsGrow(t: Sock, limit: U16, now: U16, link: Link, k: nat)
    requires t.peerMss == 0 ==> limit == 0
    ensures SendLoop(t, limit, now, link, k).calls >= k
    decreases t.sndLen - t.inflight
  {
    if MayBurst(t, limit) && link(k) == Ok {
      hide AfterEmit, AfterNew, NextSize, Wf, SegmentOf;
      AfterEmitFrame(t, FL_DATA, Ok);
      AfterNewFrame(AfterEmit(t, FL_DATA, Ok), NextSize(t, limit), now);
      CallsGrow(AfterNew(AfterEmit(t, FL_DATA, Ok), NextSize(t, limit), now), limit, now, link, k + 1);
    }
  }

  /** Queued data with nothing in flight makes the poll of a reachable socket attempt a transmission, of its
      front, exactly if neither window is closed; the congestion window is closed only against a peer
      that takes no data at all. */
  lemma DataLeaves(t: Sock, now: U16, link: Link, k: nat)
    requires Inv(t) && Marked(t) && (t.state == Established || t.state == CloseWait)
    requires t.sndLen > 0 && t.inflight == 0
    ensures var r := PollOne(t, now, link, k);
            && (r.calls > k <==> t.sndWnd > 0 && t.peerMss > 0)
            && (r.calls > k && link(k) == Ok ==>
                  var n := Min(Min(t.sndLen, t.peerMss), Min(t.sndWnd, t.cwnd));
                  && n > 0 && r.sent != [] && r.sent[0].data == SendQueue(t)[..n] && r.sent[0].fl == FL_DATA
                  && r.sent[0].seqno == t.sndUna == t.sndNxt && r.t.inflight > 0 && r.t.sentAt == now)
  {
    hide Inv, SendLoop, Retransmit, SendFin, SendAck, PollTimeWait, PollHandshake, TimerExpired;
    Sending(t);
    SendLoopFirst(t, Min(t.sndWnd, t.cwnd), now, link, k);
    TxFields(SendLoop(t, Min(t.sndWnd, t.cwnd), now, link, k).t);
  }

  lemma TxFields(t: Sock)
    ensures forall b :: TxDue(t, b).inflight == t.inflight && TxDue(t, b).sentAt == t.sentAt
  {
  }

  lemma Sending(t: Sock)
    requires Inv(t) && (t.state == Established || t.state == CloseWait)
    ensures !t.finSent && (t.cwnd > 0 <==> t.peerMss > 0)
    ensures t.inflight == 0 ==> t.sndUna == t.sndNxt
    ensures t.sndNxt == Wrap(t.iss + 1 + Retired(t) + t.inflight)
  {
    hide Wrap;
  }

  lemma ClosingFields(t: Sock)
    requires t.state == Established || t.state == CloseWait
    ensures var u := CloseDown(t);
            && u.state == t.state && u.finQueued && u.txPending && u.finSent == t.finSent && u.inflight == t.inflight
            && u.sndLen == t.sndLen && u.acc == t.acc && u.iss == t.iss && u.sndNxt == t.sndNxt
  {
  }

  /** After mn_tcp_close, the first poll the link accepts sends the FIN exactly if everything accepted has been
      acknowledged; it is then the only segment, stands one past the last accepted byte, and the socket is
      in FIN_WAIT_1, or in LAST_ACK if the peer's FIN had been taken.  Otherwise no FIN goes out and the
      state stays, unless the poll gives up. */
  lemma CloseSendsFin(t: Sock, now: U16, link: Link, k: nat)
    requires Inv(t) && (t.state == Established || t.state == CloseWait) && link(k) == Ok
    ensures var r := PollOne(CloseDown(t), now, link, k);
            && ((exists s :: s in r.sent && s.fl.fin) <==> t.sndLen == 0)
            && (t.sndLen == 0 ==>
                  && |r.sent| == 1 && r.sent[0].fl == FL_FIN_ACK && r.sent[0].data == []
                  && r.sent[0].seqno == Wrap(t.iss + 1 + |t.acc|)
                  && r.t.state == (if t.eof then LastAck else FinWait1) && r.t.finSent && r.t.sentAt == now
                  && !r.t.ackPending)
            && (t.sndLen > 0 ==> r.t.state == t.state || (r.t.state == Closed && r.t.timeout))
  {
    hide Inv, SendLoop, Retransmit, EmitFin, SendAck, PollTimeWait, PollHandshake, TimerExpired, CloseDown, SendFin;
    var u := CloseDown(t);
    CloseDownInv(t);
    ClosingFields(t);
    Sending(t);
    Sending(u);
    FinStates(t);
    if t.sndLen == 0 {
      FinLeaves(u, now, link, k);
    } else {
      NoFin(u, now, link, k);
    }
  }

  /** As long as the link does not take it the FIN has not been sent: nothing is out, and the state stays. */
  lemma FinWaitsForLink(t: Sock, now: U16, link: Link, k: nat)
    requires Inv(t) && (t.state == Established || t.state == CloseWait) && t.sndLen == 0 && link(k) != Ok
    ensures var r := PollOne(CloseDown(t), now, link, k);
            && r.calls == k + 1 && r.sent == [] && r.t.state == t.state && !r.t.finSent && r.t.finQueued
            && r.t.sndNxt == t.sndNxt
  {
    hide Inv, SendLoop, Retransmit, EmitFin, SendAck, PollTimeWait, PollHandshake, TimerExpired, CloseDown, AfterEmit;
    var u := CloseDown(t);
    CloseDownInv(t);
    ClosingFields(t);
    Sending(u);
    AfterEmitFrame(u, FL_FIN_ACK, link(k));
  }

  /** In every other state mn_tcp_close ends what has not been established, and changes nothing else. */
  lemma CloseElsewhere(t: Sock)
    requires t.state != Established && t.state != CloseWait
    ensures var u := CloseDown(t);
            if t.state == SynSent || t.state == SynRcvd || t.state == Listen then u.state == Closed && u.got == t.got
            else u == t
  {
    hide ToClosed, QueueFin;
    Ended(t);
  }

  lemma Ended(t: Sock)
    ensures ToClosed(t).state == Closed && ToClosed(t).got == t.got
  {
  }

  /** A bare acknowledgement settles what is owed unless the next hop is unknown; one the link refuses counts. */
  lemma AckSettled(t: Sock, now: U16, link: Link, k: nat)
    requires Synced(t) && t.state != TimeWait && t.ackPending && !t.finQueued && t.sndLen == 0 && t.inflight == 0 && !t.finSent
    ensures var r := PollOne(t, now, link, k);
            && r.calls == k + 1 && (r.t.ackPending <==> link(k) == Pending) && (r.sent != [] <==> link(k) == Ok)
  {
    hide AfterEmit, AckDone, Retransmit, SendQueued, SendFin, TimerExpired;
    AfterEmitFrame(t, FL_ACK, link(k));
    Settles(AfterEmit(t, FL_ACK, link(k)));
  }

  lemma Settles(t: Sock)
    ensures !AckDone(t).ackPending
  {
  }

  lemma FinStates(t: Sock)
    requires Inv(t) && (t.state == Established || t.state == CloseWait)
    ensures t.eof <==> t.state == CloseWait
  {
    hide Wrap;
  }

  lemma FinLeaves(t: Sock, now: U16, link: Link, k: nat)
    requires (t.state == Established || t.state == CloseWait) && link(k) == Ok
    ensures var r := SendFin(t, now, link, k);
            && |r.sent| == 1 && r.sent[0].fl == FL_FIN_ACK && r.sent[0].data == [] && r.sent[0].seqno == t.sndNxt
            && r.t.state == (if t.state == CloseWait then LastAck else FinWait1) && r.t.finSent && r.t.sentAt == now
            && !r.t.ackPending
  {
    hide AfterEmit, AfterFin;
    AfterEmitFrame(t, FL_FIN_ACK, Ok);
    AfterFinFields(AfterEmit(t, FL_FIN_ACK, Ok), now);
  }

  lemma AfterFinFields(t: Sock, now: U16)
    requires Live(t)
    ensures var u := AfterFin(t, now);
            && u.state == (if t.state == CloseWait then LastAck else FinWait1) && u.finSent && u.sentAt == now
            && !u.ackPending
  {
    hide Wrap;
  }

  /** A poll with data left sends no FIN. */
  lemma NoFin(t: Sock, now: U16, link: Link, k: nat)
    requires Inv(t) && (t.state == Established || t.state == CloseWait) && t.sndLen > 0 && !t.finSent
    ensures var r := PollOne(t, now, link, k);
            && (forall s :: s in r.sent ==> !s.fl.fin)
            && (r.t.state == t.state || (r.t.state == Closed && r.t.timeout))
  {
    hide Inv, SendLoop, Retransmit, SendFin, SendAck, PollTimeWait, PollHandshake, TimerExpired, TxDue;
    var limit := Min(t.sndWnd, t.cwnd);
    NoSegmentSize(t);
    SendLoopFlags(t, limit, now, link, k);
    SendLoopInv(t, limit, now, link, k);
    TxState(SendLoop(t, limit, now, link, k).t);
    AckOnly(t, link, k);
    if t.inflight > 0 {
      ResendsData(t, now, link, k);
    }
  }

  lemma NoSegmentSize(t: Sock)
    ensures t.peerMss == 0 ==> Min(t.sndWnd, t.cwnd) == 0
  {
  }

  lemma TxState(t: Sock)
    ensures forall b :: TxDue(t, b).state == t.state
  {
  }

  lemma AckOnly(t: Sock, link: Link, k: nat)
    ensures var r := SendAck(t, link, k); r.t.state == t.state && forall s :: s in r.sent ==> s.fl == FL_ACK
  {
    hide AfterEmit, AckDone;
    AfterEmitFrame(t, FL_ACK, link(k));
    DoneState(AfterEmit(t, FL_ACK, link(k)));
  }

  lemma DoneState(t: Sock)
    ensures AckDone(t).state == t.state
  {
  }

  lemma ResendsData(t: Sock, now: U16, link: Link, k: nat)
    requires Synced(t) && t.inflight > 0
    ensures var r := Retransmit(t, now, link, k);
            && (forall s :: s in r.sent ==> s.fl == FL_DATA)
            && (if t.retries == MAX_RETRIES then r.t.state == Closed && r.t.timeout else r.t.state == t.state)
  {
    hide AfterEmit, GiveUp, OneSegment, Restart, CountRetry;
    if t.retries < MAX_RETRIES {
      RetryFields(t, now);
      AfterEmitFrame(OneSegment(Restart(CountRetry(t), now)), FL_DATA, link(k));
    } else {
      GivenUpState(t);
    }
  }

  lemma GivenUpState(t: Sock)
    requires Synced(t) && t.retries == MAX_RETRIES
    ensures GiveUp(t).state == Closed && GiveUp(t).timeout
  {
  }

  lemma RetryFields(t: Sock, now: U16)
    requires t.retries < MAX_RETRIES
    ensures var u := OneSegment(Restart(CountRetry(t), now));
            && u.state == t.state && u.retries == t.retries + 1 && u.sentAt == now && u.cwnd == t.peerMss
            && u.inflight == t.inflight && u.sndLen == t.sndLen && u.acc == t.acc && u.sndUna == t.sndUna
            && u.peerMss == t.peerMss && u.rcvNxt == t.rcvNxt && u.sndNxt == t.sndNxt && u.finSent == t.finSent
  {
  }

  /** At every expiry but the last, exactly the oldest unacknowledged segment, or the FIN, goes out again, the
      congestion window is back to one segment, and what is outstanding stays outstanding; at the last
      one the connection ends with TIMEOUT. */
  lemma ExpiryResends(t: Sock, now: U16, link: Link, k: nat)
    requires Inv(t) && Synced(t) && t.state != TimeWait && Outstanding(t) && TimerExpired(t, now) && link(k) == Ok
    ensures var r := PollOne(t, now, link, k);
            if t.retries == MAX_RETRIES then r.sent == [] && r.t.state == Closed && r.t.timeout
            else
              && |r.sent| == 1 && r.sent[0].fl.ack && r.sent[0].ackno == t.rcvNxt
              && (t.inflight > 0 ==>
                    && r.sent[0].fl == FL_DATA && r.sent[0].seqno == t.sndUna
                    && r.sent[0].data == SendQueue(t)[..Min(t.inflight, t.peerMss)])
              && (t.inflight == 0 ==> r.sent[0].fl == FL_FIN_ACK && r.sent[0].seqno == Wrap(t.sndNxt - 1))
              && r.t.state == t.state && r.t.retries == t.retries + 1 && r.t.sentAt == now && r.t.cwnd == t.peerMss
              && r.t.inflight == t.inflight && r.t.sndUna == t.sndUna && r.t.finSent == t.finSent
  {
    hide Inv, AfterEmit, GiveUp, OneSegment, Restart, CountRetry, TimerExpired, SendQueued, SendFin, SendAck;
    if t.retries < MAX_RETRIES {
      var u := OneSegment(Restart(CountRetry(t), now));
      RetryFields(t, now);
      AfterEmitFrame(u, FL_DATA, Ok);
      AfterEmitFrame(u, FL_FIN_ACK, Ok);
      Oldest(t, u);
    } else {
      GivenUpState(t);
    }
  }

  lemma Oldest(t: Sock, u: Sock)
    requires u.sndLen == t.sndLen && u.acc == t.acc
    ensures SendQueue(u) == SendQueue(t)
  {
  }

  /** A SYN or SYN|ACK that is due, or whose timer has expired but for the last time, is offered again at
      this poll; it stays due until the link accepts it.  Before the timer expires nothing else is. */
  lemma SynLeaves(t: Sock, now: U16, link: Link, k: nat)
    requires t.state == SynSent || t.state == SynRcvd
    ensures !t.synPending && !TimerExpired(t, now) ==> PollOne(t, now, link, k) == Step(t, [], k)
    ensures t.synPending || (TimerExpired(t, now) && t.retries < MAX_RETRIES) ==>
            var r := PollOne(t, now, link, k);
            && r.calls == k + 1 && r.t.state == t.state && r.t.synPending == (link(k) != Ok) && r.t.sentAt == now
            && r.t.retries == (if t.synPending then t.retries else t.retries + 1)
            && (link(k) == Ok ==>
                  && |r.sent| == 1 && r.sent[0].seqno == t.iss && r.sent[0].opts == MSS_OPTION
                  && r.sent[0].fl == if t.state == SynSent then FL_SYN else FL_SYN_ACK)
  {
    hide TimerExpired, ResendSyn, CountRetry, GiveUp;
    ResendsSyn(t, now, link, k);
    if t.retries < MAX_RETRIES {
      CountFields(t);
      ResendsSyn(CountRetry(t), now, link, k);
    }
  }

  lemma CountFields(t: Sock)
    requires t.retries < MAX_RETRIES
    ensures var u := CountRetry(t); u.state == t.state && u.retries == t.retries + 1 && u.iss == t.iss
  {
  }

  lemma ResendsSyn(t: Sock, now: U16, link: Link, k: nat)
    ensures var r := ResendSyn(t, now, link, k);
            && r.calls == k + 1 && r.t.state == t.state && r.t.synPending == (link(k) != Ok) && r.t.sentAt == now
            && r.t.retries == t.retries
            && (link(k) == Ok ==>
                  && |r.sent| == 1 && r.sent[0].seqno == t.iss && r.sent[0].opts == MSS_OPTION
                  && r.sent[0].fl == if t.state == SynSent then FL_SYN else FL_SYN_ACK)
  {
    hide AfterEmit, SynDue, Restart;
    RestartFields(t, now);
    AfterEmitFrame(Restart(t, now), if t.state == SynSent then FL_SYN else FL_SYN_ACK, link(k));
    DueIs(AfterEmit(Restart(t, now), if t.state == SynSent then FL_SYN else FL_SYN_ACK, link(k)), link(k) != Ok);
  }

  lemma RestartFields(t: Sock, now: U16)
    ensures var u := Restart(t, now); u.state == t.state && u.retries == t.retries && u.iss == t.iss && u.sentAt == now
  {
  }

  lemma DueIs(t: Sock, b: bool)
    ensures var u := SynDue(t, b);
            u.state == t.state && u.retries == t.retries && u.sentAt == t.sentAt && u.synPending == b
  {
  }
}
