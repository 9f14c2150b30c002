/**
  What a socket puts on the wire, and what it promises there: every segment carries exactly
  the accepted stream at its sequence number, the FIN closes that stream, new data respects
  the peer's window, and the advertised right edge never retreats.
*/
module TcpSegments {
  import opened Words
  import opened Common
  import opened Tcp
  import opened TcpInvariants

  /** The segment carries the accepted stream from byte `off`; a FIN stands at its end. */
  predicate Carries(t: Sock, s: Segment, off: nat) {
    && s.seqno == Wrap(t.iss + 1 + off)
    && (s.data != [] ==> off + |s.data| <= |t.acc| && s.data == t.acc[off..off + |s.data|])
    && (s.fl.fin ==> s.data == [] && off == |t.acc| && t.finSent)
  }

  /** The segment acknowledges `a` sequence numbers of the peer, its SYN included. */
  predicate Acks(t: Sock, s: Segment, a: nat) {
    1 <= a <= t.rcvAbs && s.ackno == Wrap(t.irs + a)
  }

  /** A segment as RFC 9293 wants it from a socket that is now `t`. */
  ghost predicate Genuine(t: Sock, s: Segment) {
    && |s.data| <= t.peerMss && (s.opts == [] || (s.opts == MSS_OPTION && s.data == []))
    && (s.fl.syn || s.fl.rst ==> s.data == [] && !s.fl.fin)
    && (s.fl.syn ==> !s.fl.rst && s.seqno == t.iss && s.fl.ack == (t.state == SynRcvd)
                     && (t.state == SynSent || t.state == SynRcvd))
    && (t.state == SynSent || t.state == SynRcvd ==> s.fl.syn) && (s.fl.rst ==> t.state == Closed)
    && (s.fl.ack ==> Wrap(s.ackno + s.wnd) == t.advEdge && t.edgeAbs == t.rcvAbs + s.wnd)
    && (s.fl.ack && !s.fl.rst ==> exists a: nat :: Acks(t, s, a))
    && (!s.fl.syn && !s.fl.rst ==> s.fl.ack && exists off: nat :: Carries(t, s, off))
  }

  ghost predicate AllGenuine(t: Sock, sent: seq<Segment>) { forall s :: s in sent ==> Genuine(t, s) }

  /** Two moments of one connection between which nothing was accepted, received or advertised anew. */
  predicate SameStreams(u: Sock, v: Sock) {
    && u.iss == v.iss && u.irs == v.irs && u.acc == v.acc && u.rcvAbs == v.rcvAbs
    && u.peerMss == v.peerMss && u.advEdge == v.advEdge && u.edgeAbs == v.edgeAbs
  }

  /** A segment of a synchronized socket, from the position the code takes it from. */
  lemma EmitGenuine(t: Sock, fl: Flags, q: U32, off: nat, len: nat, abs: nat, r: Outcome, v: Sock)
    requires Inv(t) && Synced(t) && off + len <= t.sndLen && len <= t.peerMss
    requires fl.ack && !fl.syn && !fl.rst && r != Pending
    requires q == Wrap(t.iss + 1 + abs) && (len > 0 ==> abs == Retired(t) + off)
    requires fl.fin ==> len == 0 && abs == |t.acc| && v.finSent
    requires SameStreams(AfterEmit(t, fl, r), v) && (Synced(v) || v.state == Closed)
    ensures Genuine(v, SegmentOf(t, fl, q, off, len, false))
  {
    hide Wrap;
    var s := SegmentOf(t, fl, q, off, len, false);
    EmitData(t, fl, q, off, len, abs);
    EmitAck(t, fl, r, v);
    assert Carries(v, s, abs);
    assert Acks(v, s, t.rcvAbs);
    hide SegmentOf, AfterEmit, Inv, Carries, Acks;
  }

  lemma EmitData(t: Sock, fl: Flags, q: U32, off: nat, len: nat, abs: nat)
    requires off + len <= t.sndLen && (len > 0 ==> abs == Retired(t) + off)
    ensures var s := SegmentOf(t, fl, q, off, len, false);
            && s.seqno == q && s.fl == fl && s.opts == [] && |s.data| == len
            && s.ackno == (if fl.ack then t.rcvNxt else 0) && s.wnd == AdvWindow(t)
            && (len > 0 ==> abs + len <= |t.acc| && s.data == t.acc[abs..abs + len])
  {
  }

  /** What a segment carrying ACK says of the receiver is what is recorded. */
  lemma EmitAck(t: Sock, fl: Flags, r: Outcome, v: Sock)
    requires Inv(t) && Synced(t) && fl.ack && r != Pending && SameStreams(AfterEmit(t, fl, r), v)
    ensures v.iss == t.iss && v.irs == t.irs && v.acc == t.acc && v.rcvAbs == t.rcvAbs && v.peerMss == t.peerMss
    ensures t.rcvNxt == Wrap(t.irs + t.rcvAbs) && t.rcvAbs >= 1
    ensures v.advEdge == Wrap(t.rcvNxt + AdvWindow(t)) && v.edgeAbs == t.rcvAbs + AdvWindow(t)
  {
    hide Wrap;
  }

  lemma SynGenuine(t: Sock, v: Sock)
    requires Inv(t) && t.state == SynSent && v.state == SynSent && SameStreams(t, v)
    ensures Genuine(v, SegmentOf(t, FL_SYN, t.iss, 0, 0, true))
  {
  }

  lemma SynAckGenuine(t: Sock, r: Outcome, v: Sock)
    requires Inv(t) && t.state == SynRcvd && r != Pending
    requires v.state == SynRcvd && SameStreams(AfterEmit(t, FL_SYN_ACK, r), v)
    ensures Genuine(v, SegmentOf(t, FL_SYN_ACK, t.iss, 0, 0, true))
  {
    WrapAdd(t.irs + 1, AdvWindow(t));
    assert Acks(v, SegmentOf(t, FL_SYN_ACK, t.iss, 0, 0, true), 1);
  }

  lemma ResendSynGenuine(t: Sock, now: U16, link: Link, k: nat)
    requires Inv(t) && (t.state == SynSent || t.state == SynRcvd)
    ensures var r := ResendSyn(t, now, link, k); AllGenuine(r.t, r.sent)
  {
    hide Genuine, Inv, Wf;
    var t1 := Restart(t, now);
    MarksInv(t, t1);
    var r := ResendSyn(t, now, link, k);
    if link(k) == Ok {
      if t.state == SynSent {
        SynGenuine(t1, r.t);
      } else {
        SynAckGenuine(t1, Ok, r.t);
      }
    }
  }

  lemma PollHandshakeGenuine(t: Sock, now: U16, link: Link, k: nat)
    requires Inv(t) && (t.state == SynSent || t.state == SynRcvd)
    ensures var r := PollHandshake(t, now, link, k); AllGenuine(r.t, r.sent)
  {
    hide Genuine, Inv, ResendSyn, CountRetry, GiveUp, TimerExpired;
    if t.synPending {
      ResendSynGenuine(t, now, link, k);
    } else if t.retries < MAX_RETRIES {
      CountRetryInv(t);
      ResendSynGenuine(CountRetry(t), now, link, k);
    }
  }

  /** Sequence numbers of the oldest byte, the next byte and our FIN. */
  lemma Positions(t: Sock)
    requires Inv(t) && Synced(t)
    ensures t.inflight > 0 ==> t.sndUna == Wrap(t.iss + 1 + Retired(t))
    ensures t.sndNxt == Wrap(t.iss + 1 + (Retired(t) + t.inflight + FinLen(t)))
    ensures t.finSent ==> Retired(t) == |t.acc| && t.inflight == 0 && Wrap(t.sndNxt - 1) == Wrap(t.iss + 1 + |t.acc|)
  {
    WrapAdd(t.iss + 1 + |t.acc| + 1, -1);
  }

  /** A socket about to resend. */
  lemma RetryState(t: Sock, now: U16)
    requires Inv(t) && Synced(t) && t.retries < MAX_RETRIES
    ensures var u := OneSegment(Restart(CountRetry(t), now));
            && Inv(u) && u == t.(retries := u.retries, rto := u.rto, sentAt := u.sentAt, cwnd := u.cwnd)
  {
    CountRetryInv(t);
    MarksInv(CountRetry(t), Restart(CountRetry(t), now));
    OneSegmentInv(Restart(CountRetry(t), now));
    hide Inv;
  }

  lemma ResendDataGenuine(t: Sock, u: Sock)
    requires Inv(t) && Synced(t) && t.inflight > 0 && Inv(u)
    requires u == t.(retries := u.retries, rto := u.rto, sentAt := u.sentAt, cwnd := u.cwnd)
    ensures Genuine(AfterEmit(u, FL_DATA, Ok), SegmentOf(u, FL_DATA, t.sndUna, 0, Min(t.inflight, t.peerMss), false))
  {
    hide Genuine, Inv, AfterEmit, Wrap, SegmentOf;
    Positions(t);
    AfterEmitFrame(u, FL_DATA, Ok);
    EmitGenuine(u, FL_DATA, t.sndUna, 0, Min(t.inflight, t.peerMss), Retired(t), Ok, AfterEmit(u, FL_DATA, Ok));
  }

  lemma ResendFinGenuine(t: Sock, u: Sock)
    requires Inv(t) && Synced(t) && t.finSent && Inv(u)
    requires u == t.(retries := u.retries, rto := u.rto, sentAt := u.sentAt, cwnd := u.cwnd)
    ensures Genuine(AfterEmit(u, FL_FIN_ACK, Ok), SegmentOf(u, FL_FIN_ACK, Wrap(t.sndNxt - 1), 0, 0, false))
  {
    Positions(t);
    AfterEmitFrame(u, FL_FIN_ACK, Ok);
    hide Genuine, Inv, AfterEmit, Wrap;
    EmitGenuine(u, FL_FIN_ACK, Wrap(t.sndNxt - 1), 0, 0, |t.acc|, Ok, AfterEmit(u, FL_FIN_ACK, Ok));
  }

  lemma RetransmitGenuine(t: Sock, now: U16, link: Link, k: nat)
    requires Inv(t) && Synced(t) && Outstanding(t)
    ensures var r := Retransmit(t, now, link, k); AllGenuine(r.t, r.sent)
  {
    hide Genuine, Inv, OneSegment, Restart, CountRetry, AfterEmit, GiveUp, SegmentOf, Wrap;
    if t.retries < MAX_RETRIES && link(k) == Ok {
      RetryState(t, now);
      if t.inflight > 0 {
        ResendDataGenuine(t, OneSegment(Restart(CountRetry(t), now)));
      } else {
        ResendFinGenuine(t, OneSegment(Restart(CountRetry(t), now)));
      }
    }
  }

  /** What the send loop leaves alone. */
  lemma {:induction false} SendLoopFrame(t: Sock, limit: U16, now: U16, link: Link, k: nat)
    requires t.peerMss == 0 ==> limit == 0
    ensures var r := SendLoop(t, limit, now, link, k);
            && r.t.acc == t.acc && r.t.sndLen == t.sndLen && r.t.iss == t.iss && r.t.irs == t.irs
            && r.t.rcvAbs == t.rcvAbs && r.t.peerMss == t.peerMss && r.t.rcvNxt == t.rcvNxt
            && r.t.rcvCount == t.rcvCount && r.t.finSent == t.finSent
    ensures var r := SendLoop(t, limit, now, link, k);
            || (r.t.edgeAbs == t.edgeAbs && r.t.advEdge == t.advEdge && r.sent == [])
            || (r.t.edgeAbs == t.rcvAbs + AdvWindow(t) && r.t.advEdge == Wrap(t.rcvNxt + AdvWindow(t)))
    decreases t.sndLen - t.inflight
  {
    hide Wrap;
    if MayBurst(t, limit) && link(k) == Ok {
      var e := OfferNew(t, limit, link, k);
      SendLoopFrame(AfterNew(e.t, NextSize(t, limit), now), limit, now, link, k + 1);
    }
  }

  /** The loop never has more in flight than the peer's window and the congestion window allow. */
  lemma {:induction false} SendLoopLimit(t: Sock, limit: U16, now: U16, link: Link, k: nat)
    requires t.peerMss == 0 ==> limit == 0
    ensures var r := SendLoop(t, limit, now, link, k); r.t.inflight == t.inflight || r.t.inflight <= limit
    ensures var r := SendLoop(t, limit, now, link, k); r.sent != [] ==> t.inflight < r.t.inflight <= limit
    decreases t.sndLen - t.inflight
  {
    if MayBurst(t, limit) && link(k) == Ok {
      AfterEmitFrame(t, FL_DATA, Ok);
      AfterNewFrame(AfterEmit(t, FL_DATA, Ok), NextSize(t, limit), now);
      hide AfterEmit, AfterNew, NextSize, Wf, SegmentOf;
      SendLoopLimit(AfterNew(AfterEmit(t, FL_DATA, Ok), NextSize(t, limit), now), limit, now, link, k + 1);
    }
  }

  lemma OfferNewGenuine(t: Sock, limit: U16, v: Sock)
    requires Inv(t) && Synced(t) && MayBurst(t, limit) && t.peerMss > 0
    requires SameStreams(AfterEmit(t, FL_DATA, Ok), v) && Synced(v)
    ensures Genuine(v, SegmentOf(t, FL_DATA, t.sndNxt, t.inflight, NextSize(t, limit), false))
  {
    hide Genuine, Inv, AfterEmit, Wrap, SegmentOf;
    Positions(t);
    EmitGenuine(t, FL_DATA, t.sndNxt, t.inflight, NextSize(t, limit), Retired(t) + t.inflight, Ok, v);
  }

  /** Every segment of the loop carries the stream at its place. */
  lemma {:induction false} SendLoopGenuine(t: Sock, limit: U16, now: U16, link: Link, k: nat)
    requires Inv(t) && Synced(t) && (t.peerMss == 0 ==> limit == 0)
    ensures var r := SendLoop(t, limit, now, link, k); AllGenuine(r.t, r.sent)
    decreases t.sndLen - t.inflight
  {
    if MayBurst(t, limit) && link(k) == Ok {
      hide Genuine, Inv, AfterEmit, AfterNew, NextSize, SegmentOf, Wf, SameStreams;
      var n := NextSize(t, limit);
      var t1 := AfterEmit(t, FL_DATA, Ok);
      AfterEmitFrame(t, FL_DATA, Ok);
      AfterEmitInv(t, FL_DATA, Ok);
      AckedInv(t, FL_DATA, Ok);
      AfterNewInv(t1, n, now);
      AfterNewFrame(t1, n, now);
      FirstStep(t, limit, now, link, k);
      SendLoopGenuine(AfterNew(t1, n, now), limit, now, link, k + 1);
      SendLoopInv(t, limit, now, link, k);
      OfferNewGenuine(t, limit, SendLoop(t, limit, now, link, k).t);
    }
  }

  lemma FirstStep(t: Sock, limit: U16, now: U16, link: Link, k: nat)
    requires MayBurst(t, limit) && t.peerMss > 0 && link(k) == Ok
    ensures SameStreams(AfterEmit(t, FL_DATA, Ok), SendLoop(t, limit, now, link, k).t)
  {
    SendLoopFrame(t, limit, now, link, k);
    hide Wrap;
  }

  lemma SendQueuedGenuine(t: Sock, now: U16, link: Link, k: nat)
    requires Inv(t) && Synced(t)
    ensures var r := SendQueued(t, now, link, k); AllGenuine(r.t, r.sent)
    ensures var r := SendQueued(t, now, link, k);
            r.sent != [] ==> t.inflight < r.t.inflight <= Min(t.sndWnd, t.cwnd)
  {
    var limit := Min(t.sndWnd, t.cwnd);
    SendLoopGenuine(t, limit, now, link, k);
    SendLoopLimit(t, limit, now, link, k);
    SendLoopInv(t, limit, now, link, k);
    hide SendLoop, Genuine, Inv;
    var r := SendQueued(t, now, link, k);
    forall s | s in r.sent ensures Genuine(r.t, s) {
      GenuineStable(SendLoop(t, limit, now, link, k).t, r.t, s);
    }
  }

  lemma GenuineStable(u: Sock, v: Sock, s: Segment)
    requires Genuine(u, s) && SameStreams(u, v) && u.state == v.state && u.finSent == v.finSent
    ensures Genuine(v, s)
  {
    hide Wrap;
    if s.fl.ack && !s.fl.rst {
      var a: nat :| Acks(u, s, a);
      assert Acks(v, s, a);
    }
    if !s.fl.syn && !s.fl.rst {
      var off: nat :| Carries(u, s, off);
      assert Carries(v, s, off);
    }
  }

  /** The FIN goes out only when every accepted byte has been acknowledged, one past the last of them. */
  lemma SendFinGenuine(t: Sock, now: U16, link: Link, k: nat)
    requires Inv(t) && Synced(t) && t.finQueued && !t.finSent && t.inflight == 0 && t.sndLen == 0
    ensures var r := SendFin(t, now, link, k); AllGenuine(r.t, r.sent)
    ensures t.sndUna == t.sndNxt == Wrap(t.iss + 1 + |t.acc|)
  {
    hide Genuine, Inv, AfterEmit, AfterFin, Wrap, SegmentOf;
    Positions(t);
    AllAcked(t);
    if link(k) == Ok {
      FinStreams(t, now);
      EmitGenuine(t, FL_FIN_ACK, t.sndNxt, 0, 0, |t.acc|, Ok, AfterFin(AfterEmit(t, FL_FIN_ACK, Ok), now));
    }
  }

  lemma AllAcked(t: Sock)
    requires Inv(t) && Synced(t) && !t.finSent && t.inflight == 0
    ensures t.sndUna == t.sndNxt
  {
    hide Wrap;
  }

  lemma FinStreams(t: Sock, now: U16)
    requires Synced(t)
    ensures var u := AfterEmit(t, FL_FIN_ACK, Ok);
            && Live(u) && var v := AfterFin(u, now); SameStreams(u, v) && Synced(v) && v.finSent
  {
    AfterEmitFrame(t, FL_FIN_ACK, Ok);
    hide AfterEmit, Wrap;
  }

  lemma AckGenuine(t: Sock, v: Sock)
    requires Inv(t) && Synced(t) && SameStreams(AfterEmit(t, FL_ACK, Ok), v) && (Synced(v) || v.state == Closed)
    ensures Genuine(v, SegmentOf(t, FL_ACK, t.sndNxt, 0, 0, false))
  {
    Positions(t);
    hide Genuine, Inv, AfterEmit, Wrap;
    EmitGenuine(t, FL_ACK, t.sndNxt, 0, 0, Retired(t) + t.inflight + FinLen(t), Ok, v);
  }

  lemma SendAckGenuine(t: Sock, link: Link, k: nat)
    requires Inv(t) && Synced(t)
    ensures var r := SendAck(t, link, k); AllGenuine(r.t, r.sent)
  {
    hide Genuine, Inv, AfterEmit, SegmentOf;
    if link(k) == Ok {
      AfterEmitFrame(t, FL_ACK, Ok);
      AckGenuine(t, AckDone(AfterEmit(t, FL_ACK, Ok)));
    }
  }

  lemma PollTimeWaitGenuine(t: Sock, now: U16, link: Link, k: nat)
    requires Inv(t) && t.state == TimeWait
    ensures var r := PollTimeWait(t, now, link, k); AllGenuine(r.t, r.sent)
  {
    AckDoneInv(t);
    hide Genuine, Inv, AfterEmit, SegmentOf;
    if t.ackPending && link(k) == Ok {
      AckGenuine(AckDone(t), PollTimeWait(t, now, link, k).t);
    }
  }

  lemma PollOneGenuine(t: Sock, now: U16, link: Link, k: nat)
    requires Inv(t)
    ensures var r := PollOne(t, now, link, k); AllGenuine(r.t, r.sent)
  {
    hide Inv, Genuine, PollHandshake, PollTimeWait, Retransmit, SendQueued, SendFin, SendAck, TimerExpired;
    if t.state == SynSent || t.state == SynRcvd {
      PollHandshakeGenuine(t, now, link, k);
    } else if t.state == TimeWait {
      PollTimeWaitGenuine(t, now, link, k);
    } else if Live(t) {
      if Outstanding(t) && TimerExpired(t, now) {
        RetransmitGenuine(t, now, link, k);
      } else {
        SendQueuedGenuine(t, now, link, k);
        if t.finQueued && !t.finSent && t.inflight == 0 && t.sndLen == 0 {
          SendFinGenuine(t, now, link, k);
        }
        SendAckGenuine(t, link, k);
      }
    }
  }

  lemma ConnectGenuine(t: Sock, ip: Addr, port: U16, localPort: U16, iss: U32, now: U16, link: Link, k: nat)
    requires Inv(t)
    ensures var r := Connect(t, ip, port, localPort, iss, now, link, k); AllGenuine(r.t, r.sent)
  {
  }

  lemma PassiveOpenGenuine(t: Sock, src: Addr, s: Segment, iss: U32, now: U16, link: Link, k: nat)
    requires Inv(t)
    ensures var r := PassiveOpen(t, src, s, iss, now, link, k); AllGenuine(r.t, r.sent)
  {
    PassiveOpenInv(t, src, s, iss, now, link, k);
    var r := PassiveOpen(t, src, s, iss, now, link, k);
    if link(k) == Ok {
      WrapAdd(s.seqno + 1, AdvWindow(r.t));
      assert Acks(r.t, r.sent[0], 1);
    }
  }

  lemma AbortGenuine(t: Sock, link: Link, k: nat)
    requires Inv(t)
    ensures var r := Abort(t, link, k); AllGenuine(r.t, r.sent)
  {
    hide Genuine, SegmentOf, AfterEmit, Cleared, Wrap;
    if Live(t) {
      ClearedStreams(AfterEmit(t, FL_RST_ACK, Ok));
      AdvertisedEdge(t, FL_RST_ACK);
      RstGenuine(t, Cleared(AfterEmit(t, FL_RST_ACK, Ok)));
    }
  }

  lemma ClearedStreams(t: Sock)
    ensures Cleared(t).state == Closed && Cleared(t).advEdge == t.advEdge && Cleared(t).edgeAbs == t.edgeAbs
    ensures Cleared(t).rcvAbs == t.rcvAbs
  {
  }

  lemma AdvertisedEdge(t: Sock, fl: Flags)
    requires fl.ack
    ensures var u := AfterEmit(t, fl, Ok);
            u.advEdge == Wrap(t.rcvNxt + AdvWindow(t)) && u.edgeAbs == t.rcvAbs + AdvWindow(t) && u.rcvAbs == t.rcvAbs
  {
    hide Wrap;
  }

  lemma RstGenuine(t: Sock, v: Sock)
    requires v.state == Closed && v.advEdge == Wrap(t.rcvNxt + AdvWindow(t)) && v.edgeAbs == v.rcvAbs + AdvWindow(t)
    ensures Genuine(v, SegmentOf(t, FL_RST_ACK, t.sndNxt, 0, 0, false))
  {
    hide Wrap, AdvWindow;
  }

  /** Every segment any step puts on the wire is genuine. */
  lemma ApplyGenuine(t: Sock, e: Event, link: Link, k: nat)
    requires Inv(t)
    ensures var r := Apply(t, e, link, k); AllGenuine(r.t, r.sent)
  {
    hide Inv, Genuine, Connect, Abort, PassiveOpen, SegmentInput, PollOne;
    match e
    case EConnect(ip, port, localPort, iss, now) => ConnectGenuine(t, ip, port, localPort, iss, now, link, k);
    case EAbort => AbortGenuine(t, link, k);
    case EArrive(src, seg, iss, now) => PassiveOpenGenuine(t, src, seg, iss, now, link, k);
    case EPoll(now) => PollOneGenuine(t, now, link, k);
    case _ =>
  }
}
