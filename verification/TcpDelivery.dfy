/**
  What one side of a connection sends the other side owns: ports and addresses from the segments
  that leave a socket to the socket that takes them, and what an RST achieves there.
*/
module TcpDelivery {
  import opened Words
  import opened Common
  import opened Tcp
  import opened TcpInvariants
  import opened TcpSegments
  import opened TcpWindow
  import opened TcpDispatch
  import Calls = TcpCalls

  /** The two ends of one connection, at the addresses `ipA` and `ipB`. */
  predicate Mirrored(a: Sock, ipA: Addr, b: Sock, ipB: Addr) {
    a.localPort == b.remotePort && a.remotePort == b.localPort && a.remoteIp == ipB && b.remoteIp == ipA
  }

  /** From this socket to its peer. */
  predicate Addressed(t: Sock, s: Segment) { s.sport == t.localPort && s.dport == t.remotePort }

  predicate AllAddressed(t: Sock, sent: seq<Segment>) { forall s :: s in sent ==> Addressed(t, s) }

  lemma AddressedSame(t: Sock, u: Sock, sent: seq<Segment>)
    requires AllAddressed(t, sent) && SameTuple(t, u)
    ensures AllAddressed(u, sent)
  {
  }

  lemma BuiltAddressed(t: Sock, u: Sock, fl: Flags, q: U32, off: nat, len: nat, withMss: bool)
    requires off + len <= u.sndLen && SameTuple(t, u)
    ensures Addressed(t, SegmentOf(u, fl, q, off, len, withMss))
  {
  }

  lemma MarksTuple(t: Sock, now: U16)
    ensures SameTuple(t, Restart(t, now)) && SameTuple(t, OneSegment(t)) && SameTuple(t, AckDone(t))
    ensures SameTuple(t, t)
  {
  }

  lemma RetryTuple(t: Sock)
    requires t.retries < MAX_RETRIES
    ensures SameTuple(t, CountRetry(t))
  {
  }

  lemma ResendSynAddressed(t: Sock, now: U16, link: Link, k: nat)
    ensures AllAddressed(t, ResendSyn(t, now, link, k).sent)
  {
    hide SegmentOf, Restart, AfterEmit, SynDue, SameTuple;
    MarksTuple(t, now);
    BuiltAddressed(t, Restart(t, now), if t.state == SynSent then FL_SYN else FL_SYN_ACK, t.iss, 0, 0, true);
    SynOf(t, now);
  }

  lemma SynOf(t: Sock, now: U16)
    ensures Restart(t, now).state == t.state && Restart(t, now).iss == t.iss
  {
  }

  lemma HandshakeAddressed(t: Sock, now: U16, link: Link, k: nat)
    requires Live(t)
    ensures AllAddressed(t, PollHandshake(t, now, link, k).sent)
  {
    hide ResendSyn, CountRetry, GiveUp, TimerExpired, SameTuple;
    ResendSynAddressed(t, now, link, k);
    if t.retries < MAX_RETRIES {
      RetryTuple(t);
      ResendSynAddressed(CountRetry(t), now, link, k);
      TupleSwap(t, CountRetry(t));
      AddressedSame(CountRetry(t), t, ResendSyn(CountRetry(t), now, link, k).sent);
    }
  }

  lemma TupleSwap(t: Sock, u: Sock)
    requires SameTuple(t, u)
    ensures SameTuple(u, t)
  {
  }

  lemma RetransmitAddressed(t: Sock, now: U16, link: Link, k: nat)
    requires Synced(t)
    ensures AllAddressed(t, Retransmit(t, now, link, k).sent)
  {
    hide SegmentOf, Restart, OneSegment, CountRetry, AfterEmit, GiveUp, SameTuple;
    if t.retries < MAX_RETRIES {
      var t1 := CountRetry(t);
      var t2 := Restart(t1, now);
      RetryTuple(t);
      MarksTuple(t1, now);
      MarksTuple(t2, now);
      TupleTrans(t, t1, t2);
      TupleTrans(t, t2, OneSegment(t2));
      RetryQueue(t, now);
      BuiltAddressed(t, OneSegment(t2), FL_DATA, t.sndUna, 0, Min(t.inflight, t.peerMss), false);
      BuiltAddressed(t, OneSegment(t2), FL_FIN_ACK, Wrap(t.sndNxt - 1), 0, 0, false);
    }
  }

  lemma RetryQueue(t: Sock, now: U16)
    requires t.retries < MAX_RETRIES
    ensures OneSegment(Restart(CountRetry(t), now)).sndLen == t.sndLen
  {
  }

  lemma {:induction false} SendLoopAddressed(t: Sock, limit: U16, now: U16, link: Link, k: nat)
    requires t.peerMss == 0 ==> limit == 0
    ensures AllAddressed(t, SendLoop(t, limit, now, link, k).sent)
    decreases t.sndLen - t.inflight
  {
    if MayBurst(t, limit) && link(k) == Ok {
      hide AfterEmit, AfterNew, NextSize, SegmentOf, SameTuple, Wf;
      var n, t1 := NextSize(t, limit), AfterEmit(t, FL_DATA, Ok);
      AfterEmitFrame(t, FL_DATA, Ok);
      AfterNewFrame(t1, n, now);
      EmitTuple(t, FL_DATA, Ok);
      NewTuple(t1, n, now);
      TupleTrans(t, t1, AfterNew(t1, n, now));
      TupleSwap(t, AfterNew(t1, n, now));
      SendLoopAddressed(AfterNew(t1, n, now), limit, now, link, k + 1);
      AddressedSame(AfterNew(t1, n, now), t, SendLoop(AfterNew(t1, n, now), limit, now, link, k + 1).sent);
      MarksTuple(t, now);
      BuiltAddressed(t, t, FL_DATA, t.sndNxt, t.inflight, n, false);
    }
  }

  lemma NewTuple(t: Sock, n: nat, now: U16)
    requires t.inflight + n <= t.sndLen
    ensures SameTuple(t, AfterNew(t, n, now))
  {
    hide Wrap;
  }

  lemma LastAddressed(t: Sock, now: U16, link: Link, k: nat)
    requires Live(t)
    ensures AllAddressed(t, SendFin(t, now, link, k).sent) && AllAddressed(t, SendAck(t, link, k).sent)
  {
    hide AfterEmit, AfterFin, AckDone, SegmentOf, SameTuple;
    MarksTuple(t, now);
    BuiltAddressed(t, t, FL_FIN_ACK, t.sndNxt, 0, 0, false);
    BuiltAddressed(t, t, FL_ACK, t.sndNxt, 0, 0, false);
  }

  lemma WaitAddressed(t: Sock, now: U16, link: Link, k: nat)
    ensures AllAddressed(t, AckInTimeWait(t, now, link, k).sent)
  {
    hide AfterEmit, AckDone, WaitFrom, SegmentOf, SameTuple;
    MarksTuple(t, now);
    BuiltAddressed(t, AckDone(t), FL_ACK, t.sndNxt, 0, 0, false);
  }

  lemma PollAddressed(t: Sock, now: U16, link: Link, k: nat)
    ensures AllAddressed(t, PollOne(t, now, link, k).sent)
  {
    hide PollHandshake, AckInTimeWait, Retransmit, SendLoop, SendFin, SendAck, TimerExpired, Outstanding, ToClosed, Addressed;
    if Live(t) {
      HandshakeAddressed(t, now, link, k);
      LastAddressed(t, now, link, k);
      WaitAddressed(t, now, link, k);
      SendLoopAddressed(t, if t.peerMss == 0 then 0 else Min(t.sndWnd, t.cwnd), now, link, k);
      if Synced(t) {
        RetransmitAddressed(t, now, link, k);
      }
    }
  }

  lemma AbortAddressed(t: Sock, link: Link, k: nat)
    ensures var r := Abort(t, link, k); AllAddressed(r.t, r.sent)
  {
    hide Emit, Cleared, SameTuple, Addressed;
    RstAddressed(t, link, k);
  }

  lemma RstAddressed(t: Sock, link: Link, k: nat)
    ensures var e := Emit(t, FL_RST_ACK, t.sndNxt, 0, 0, false, link, k); AllAddressed(Cleared(e.t), e.sent)
  {
    hide AfterEmit, Cleared, SegmentOf, SameTuple, Addressed;
    var u := AfterEmit(t, FL_RST_ACK, link(k));
    EmitTuple(t, FL_RST_ACK, link(k));
    ClearedTuple(u);
    TupleTrans(t, u, Cleared(u));
    MarksTuple(t, 0);
    BuiltAddressed(t, t, FL_RST_ACK, t.sndNxt, 0, 0, false);
    AddressedSame(t, Cleared(u), Emit(t, FL_RST_ACK, t.sndNxt, 0, 0, false, link, k).sent);
  }

  lemma ClearedTuple(t: Sock)
    ensures SameTuple(t, Cleared(t))
  {
  }

  lemma OpeningAddressed(t: Sock, fl: Flags, link: Link, k: nat)
    ensures var e := Emit(t, fl, t.iss, 0, 0, true, link, k);
            && AllAddressed(SynDue(e.t, link(k) != Ok), e.sent) && SameTuple(t, SynDue(e.t, link(k) != Ok))
  {
    hide AfterEmit, SynDue, SegmentOf, SameTuple;
    var u := AfterEmit(t, fl, link(k));
    EmitTuple(t, fl, link(k));
    DueTuple(u, link(k) != Ok);
    TupleTrans(t, u, SynDue(u, link(k) != Ok));
    MarksTuple(t, 0);
    BuiltAddressed(t, t, fl, t.iss, 0, 0, true);
    AddressedSame(t, SynDue(u, link(k) != Ok), Emit(t, fl, t.iss, 0, 0, true, link, k).sent);
  }

  lemma DueTuple(t: Sock, b: bool)
    ensures SameTuple(t, SynDue(t, b))
  {
  }

  /** Everything a step puts on the wire carries the socket's own ports. */
  lemma ApplyAddressed(t: Sock, e: Event, link: Link, k: nat)
    requires Inv(t)
    ensures var r := Apply(t, e, link, k); AllAddressed(r.t, r.sent)
  {
    hide Inv, Connecting, Opening, Emit, SynDue, Abort, SegmentInput, PollOne, SendBytes, RecvBytes, CloseDown, Addressed, Wf;
    match e
    case EConnect(ip, port, localPort, iss, now) =>
      OpeningAddressed(Connecting(t, ip, port, localPort, iss, now), FL_SYN, link, k);
      IssOf(t, ip, port, localPort, iss, now);
    case EArrive(src, seg, iss, now) =>
      OpeningAddressed(Opening(t, src, seg, iss, now), FL_SYN_ACK, link, k);
      OpeningIss(t, src, seg, iss, now);
    case EAbort => AbortAddressed(t, link, k);
    case EPoll(now) =>
      HandshakeEof(t);
      PollOnePolls(t, now, link, k);
      PollAddressed(t, now, link, k);
      PollTuple(t, PollOne(t, now, link, k).t);
      AddressedSame(t, PollOne(t, now, link, k).t, PollOne(t, now, link, k).sent);
    case _ =>
  }

  lemma PollTuple(t: Sock, u: Sock)
    requires PollOnly(t, u)
    ensures SameTuple(t, u)
  {
  }

  lemma IssOf(t: Sock, ip: Addr, port: U16, localPort: U16, iss: U32, now: U16)
    ensures var u := Connecting(t, ip, port, localPort, iss, now);
            u.iss == iss && u.localPort == localPort && u.remotePort == port && u.remoteIp == ip && u.state == SynSent
  {
    hide Wrap;
  }

  lemma OpeningIss(t: Sock, src: Addr, s: Segment, iss: U32, now: U16)
    ensures var u := Opening(t, src, s, iss, now);
            && u.iss == iss && u.localPort == t.localPort && u.remotePort == s.sport && u.remoteIp == src
            && u.state == SynRcvd
  {
    hide Wrap, TakeMss;
  }

  /** A segment that arrives at its owner is the owner's. */
  lemma OwnerTakes(t: Sock, src: Addr, s: Segment, iss: U32, now: U16, link: Link, k: nat)
    requires Owns(t, src, s)
    ensures Arrive(t, src, s, iss, now, link, k) == Step(SegmentInput(t, s, now), [], k)
  {
    hide SegmentInput, PassiveOpen;
  }

  /** Whatever makes a socket send, its live peer owns every segment sent. */
  lemma SentIsOwned(a: Sock, ipA: Addr, b: Sock, ipB: Addr, e: Event, link: Link, k: nat)
    requires Inv(a) && Live(b) && Mirrored(Apply(a, e, link, k).t, ipA, b, ipB)
    ensures forall s :: s in Apply(a, e, link, k).sent ==> Owns(b, ipA, s)
  {
    ApplyAddressed(a, e, link, k);
    hide Apply;
  }

  // ----- a SYN finds its listener -----

  /** The SYN of a connect is a bare SYN to the port asked for, and a socket that has been told to listen
      there takes it, for every state of the two before the calls. */
  lemma SynIsHeard(a: Sock, ip: Addr, port: U16, localPort: U16, iss: U32, now: U16, link: Link, k: nat, b: Sock)
    requires a.state == Closed && link(k) == Ok && b.state == Closed && port != 0
    ensures var r := Apply(a, EConnect(ip, port, localPort, iss, now), link, k);
            && r.t.state == SynSent && !r.t.synPending && |r.sent| == 1
            && var s := r.sent[0];
               && BareSyn(s) && s.seqno == iss && s.opts == MSS_OPTION && s.data == [] && !s.fl.fin
               && Listens(Apply(b, EListen(port), link, k).t, s)
  {
    hide AfterEmit, Connecting, SynDue, ResetCounters;
    var t := Connecting(a, ip, port, localPort, iss, now);
    IssOf(a, ip, port, localPort, iss, now);
    SynState(AfterEmit(t, FL_SYN, Ok));
    EmitTuple(t, FL_SYN, Ok);
    ListenPort(b, port);
  }

  lemma SynState(t: Sock)
    ensures SynDue(t, false).state == t.state && !SynDue(t, false).synPending
  {
  }

  lemma ListenPort(t: Sock, port: U16)
    requires t.state == Closed && port != 0
    ensures ListenOn(t, port).state == Listen && ListenOn(t, port).localPort == port
  {
  }

  /** A listener that takes a SYN is then the sender's peer, half open, and its answer, if the link takes
      it, is a SYN|ACK for that SYN. */
  lemma ListenerAnswers(b: Sock, src: Addr, s: Segment, iss: U32, now: U16, link: Link, k: nat)
    requires BareSyn(s) && Listens(b, s)
    ensures var r := Apply(b, EArrive(src, s, iss, now), link, k);
            && r.t.state == SynRcvd && r.t.irs == s.seqno && r.t.rcvNxt == Wrap(s.seqno + 1) && r.t.iss == iss
            && r.t.sndWnd == s.wnd && r.t.peerMss == TakeMss(s.opts, 536)
            && r.t.localPort == s.dport && r.t.remotePort == s.sport && r.t.remoteIp == src
            && (link(k) != Ok ==> r.sent == [])
            && (link(k) == Ok ==>
                  && |r.sent| == 1 && r.sent[0].fl == FL_SYN_ACK && r.sent[0].seqno == iss
                  && r.sent[0].ackno == Wrap(s.seqno + 1) && r.sent[0].opts == MSS_OPTION && r.sent[0].wnd == WINDOW_CAP)
  {
    hide AfterEmit, Opening, SynDue, Wrap, SegmentInput, TakeMss;
    var t := Opening(b, src, s, iss, now);
    OpeningIss(b, src, s, iss, now);
    OpeningRest(b, src, s, iss, now);
    AfterEmitFrame(t, FL_SYN_ACK, link(k));
    DueFields(AfterEmit(t, FL_SYN_ACK, link(k)), link(k) != Ok);
    DueTuple(AfterEmit(t, FL_SYN_ACK, link(k)), link(k) != Ok);
  }

  lemma OpeningRest(t: Sock, src: Addr, s: Segment, iss: U32, now: U16)
    ensures var u := Opening(t, src, s, iss, now);
            && u.irs == s.seqno && u.rcvNxt == Wrap(s.seqno + 1) && u.sndWnd == s.wnd && u.rcvCount == 0
            && u.peerMss == TakeMss(s.opts, 536)
  {
    hide Wrap, TakeMss;
  }

  lemma DueFields(t: Sock, b: bool)
    ensures var u := SynDue(t, b);
            && u.state == t.state && u.irs == t.irs && u.rcvNxt == t.rcvNxt && u.iss == t.iss && u.sndWnd == t.sndWnd
            && u.peerMss == t.peerMss
  {
  }

  // ----- what an RST achieves -----

  /** Swaps the ends: the answer to a segment goes to whoever sent it. */
  lemma AnswerIsOwned(t: Sock, s: Segment)
    requires Live(t) && Addressed(t, s)
    ensures Owns(t, t.remoteIp, RstReply(s))
  {
  }

  /** A SYN to a port nobody listens on is refused: whatever step of a connecting socket has sent it, the
      RST that answers it finds that socket and closes it as REFUSED. */
  lemma SynIsRefused(t: Sock, e: Event, link: Link, k: nat, s: Segment, iss: U32, now: U16, n: nat)
    requires Inv(t) && s in Apply(t, e, link, k).sent && Apply(t, e, link, k).t.state == SynSent
    ensures var u := Apply(t, e, link, k).t;
            var v := Arrive(u, u.remoteIp, RstReply(s), iss, now, link, n).t;
            Owns(u, u.remoteIp, RstReply(s)) && v.state == Closed && v.refused && v.reset
  {
    hide Apply, Inv, Genuine, Addressed, Refused;
    var u := Apply(t, e, link, k).t;
    ApplyInv(t, e, link, k);
    ApplyGenuine(t, e, link, k);
    ApplyAddressed(t, e, link, k);
    AnswerIsOwned(u, s);
    OwnerTakes(u, u.remoteIp, RstReply(s), iss, now, link, n);
    SynSegment(u, s);
    RefusedState(u);
  }

  lemma SynSegment(t: Sock, s: Segment)
    requires Inv(t) && Genuine(t, s) && t.state == SynSent
    ensures s.fl.syn && !s.fl.ack && !s.fl.fin && s.data == [] && Wrap(s.seqno + 1) == t.sndNxt
  {
    hide Wrap;
  }

  lemma RefusedState(t: Sock)
    ensures var u := Refused(t); u.state == Closed && u.refused && u.reset
  {
  }

  /** A socket whose peer has forgotten the connection learns it from the RST that answers any segment
      it has just sent, exactly if its own receive ring is not full: an RST at the edge of a closed
      window is ignored. */
  lemma OrphanLearns(t: Sock, e: Event, link: Link, k: nat, s: Segment, iss: U32, now: U16, n: nat)
    requires Inv(t) && s in Apply(t, e, link, k).sent && Synced(Apply(t, e, link, k).t)
    ensures var u := Apply(t, e, link, k).t;
            var v := Arrive(u, u.remoteIp, RstReply(s), iss, now, link, n).t;
            Owns(u, u.remoteIp, RstReply(s)) && if RcvFree(u) > 0 then v.state == Closed && v.reset else v == u
  {
    hide Apply, Inv, Genuine, Addressed, Reset, SeqLt, SeqLeq, Wrap;
    var u := Apply(t, e, link, k).t;
    ApplyInv(t, e, link, k);
    ApplyGenuine(t, e, link, k);
    ApplyAddressed(t, e, link, k);
    AnswerIsOwned(u, s);
    OwnerTakes(u, u.remoteIp, RstReply(s), iss, now, link, n);
    AcksPosition(u, s);
    EdgeOfWindow(u.rcvNxt, AdvWindow(u));
    ResetState(u);
  }

  /** What a synchronized socket has just sent acknowledges exactly what it has received. */
  lemma AcksPosition(t: Sock, s: Segment)
    requires Inv(t) && Genuine(t, s) && Synced(t)
    ensures s.fl.ack && s.ackno == t.rcvNxt
  {
    hide Wrap;
    WrapAdd(t.irs + t.rcvAbs, s.wnd);
    Calls.SameShift(s.ackno, t.rcvNxt, s.wnd);
  }

  lemma ResetState(t: Sock)
    ensures Reset(t).state == Closed && Reset(t).reset
  {
  }

  /** An abort is heard: a synchronized peer that has received everything we sent, and has room in its
      ring, is found and reset by the RST; a peer with a full ring ignores it. */
  lemma AbortIsHeard(t: Sock, ip: Addr, peer: Sock, peerIp: Addr, iss: U32, now: U16, link: Link, k: nat)
    requires Inv(t) && Synced(t) && t.state != TimeWait && link(k) == Ok
    requires Synced(peer) && peer.rcvNxt == t.sndNxt && Mirrored(t, ip, peer, peerIp)
    ensures var r := Abort(t, link, k);
            && |r.sent| == 1 && r.t.state == Closed && Owns(peer, ip, r.sent[0])
            && var u := Arrive(peer, ip, r.sent[0], iss, now, link, k).t;
               if RcvFree(peer) > 0 then u.state == Closed && u.reset else u == peer
  {
    hide Inv, Cleared, AfterEmit, Wrap, SeqLt, SeqLeq, Reset, Owns;
    var u := AfterEmit(t, FL_RST_ACK, Ok);
    var s := Abort(t, link, k).sent[0];
    RstAddressed(t, link, k);
    EmitTuple(t, FL_RST_ACK, Ok);
    ClearedTuple(u);
    ClearedState(u);
    OwnedByMirror(t, ip, peer, peerIp, s);
    OwnerTakes(peer, ip, s, iss, now, link, k);
    EdgeOfWindow(peer.rcvNxt, AdvWindow(peer));
    ResetState(peer);
  }

  lemma OwnedByMirror(t: Sock, ip: Addr, peer: Sock, peerIp: Addr, s: Segment)
    requires Live(peer) && Mirrored(t, ip, peer, peerIp) && Addressed(t, s)
    ensures Owns(peer, ip, s)
  {
  }

  lemma ClearedState(t: Sock)
    ensures Cleared(t).state == Closed
  {
  }
}
