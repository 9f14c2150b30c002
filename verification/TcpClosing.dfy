/**
  What mn_tcp_close and a used-up window mean for the rest of a connection.
*/
module TcpClosing {
  import opened Words
  import opened Common
  import opened Tcp
  import opened TcpInvariants
  import opened TcpWindow
  import opened TcpEndToEnd
  import opened TcpRuns
  import Net = TcpNetwork

  // ----- after mn_tcp_close -----

  /** No more data is accepted: the connection is over, or its FIN is queued. */
  predicate Shut(t: Sock) { t.state == Closed || (Synced(t) && t.finQueued) }

  lemma CloseShuts(t: Sock)
    requires Inv(t)
    ensures Shut(CloseDown(t)) && CloseDown(t).acc == t.acc && CloseDown(t).iss == t.iss
  {
    hide Inv, QueueFin, ToClosed, Wf;
    QueuesFin(t);
    Closes(t);
    if Synced(t) {
      FinQueued(t);
    }
  }

  lemma FinQueued(t: Sock)
    requires Inv(t) && Synced(t)
    ensures t.state != Established && t.state != CloseWait ==> t.finQueued
  {
    hide Wrap;
  }

  lemma QueuesFin(t: Sock)
    ensures var u := QueueFin(t); u == t.(finQueued := true, txPending := true)
  {
  }

  lemma Closes(t: Sock)
    ensures var u := ToClosed(t); u == t.(state := Closed)
  {
  }

  lemma ShutAccepts(t: Sock, n: nat)
    requires Shut(t)
    ensures !CanSend(t) && Accepts(t, n) == 0
  {
  }

  /** A step of a shut connection: nothing is accepted and it stays shut. */
  lemma StaysShut(t: Sock, e: Event, link: Link, k: nat)
    requires Inv(t) && Shut(t) && !Opens(t, e)
    ensures var u := Apply(t, e, link, k).t; Shut(u) && u.acc == t.acc && u.iss == t.iss
  {
    hide Inv, Shut, SendBytes, RecvBytes, CloseDown, Abort, SegmentInput, PollOne, Wf;
    match e
    case ESend(data) => ShutAccepts(t, |data|); SendsNothing(t, data);
    case ERecv(cap) => RecvShut(t, cap);
    case EClose => CloseShuts(t);
    case EAbort => AbortShuts(t, link, k);
    case EArrive(src, seg, iss, now) => ArriveShut(t, seg, now);
    case EPoll(now) => PollShut(t, now, link, k);
    case _ => NothingHappens(t, e, link, k);
  }

  lemma SendsNothing(t: Sock, data: seq<Byte>)
    requires Accepts(t, |data|) == 0
    ensures SendBytes(t, data) == t
  {
  }

  lemma RecvShut(t: Sock, cap: nat)
    requires Shut(t)
    ensures var u := RecvBytes(t, cap); Shut(u) && u.acc == t.acc && u.iss == t.iss
  {
    DrainShut(t, Min(cap, t.rcvCount));
    hide Drain, WantAck, EdgeMoved, Shut;
  }

  lemma DrainShut(t: Sock, n: nat)
    requires Shut(t) && n <= t.rcvCount
    ensures var u := Drain(t, n); Shut(u) && u.acc == t.acc && u.iss == t.iss
    ensures var u := WantAck(Drain(t, n)); Shut(u) && u.acc == t.acc && u.iss == t.iss
  {
  }

  lemma AbortShuts(t: Sock, link: Link, k: nat)
    ensures var u := Abort(t, link, k).t; Shut(u) && u.acc == t.acc && u.iss == t.iss
  {
    AfterEmitFrame(t, FL_RST_ACK, link(k));
    hide AfterEmit;
  }

  lemma ArriveShut(t: Sock, s: Segment, now: U16)
    requires Inv(t) && Shut(t)
    ensures t.state != Listen
    ensures Live(t) ==> var u := SegmentInput(t, s, now); Shut(u) && u.acc == t.acc && u.iss == t.iss
  {
    if Live(t) {
      SegmentKept(t, s, now);
      Net.SyncedRole(t, s, now);
    }
    hide SegmentInput, Inv;
  }

  lemma PollShut(t: Sock, now: U16, link: Link, k: nat)
    requires Inv(t) && Shut(t)
    ensures var u := PollOne(t, now, link, k).t; Shut(u) && u.acc == t.acc && u.iss == t.iss
  {
    HandshakeEof(t);
    PollOnePolls(t, now, link, k);
    hide PollOne, Inv;
  }

  lemma {:induction false} StaysShutOver(t: Sock, es: seq<Event>, link: Link)
    requires Inv(t) && Shut(t) && OneConnection(t, es, link)
    ensures var u := After(t, es, link).t; Shut(u) && u.acc == t.acc && u.iss == t.iss
  {
    hide Inv, Shut, Apply, Opens, Wf;
    if es != [] {
      StaysShutOver(t, es[..|es| - 1], link);
      RunInv(t, es[..|es| - 1], link);
      var p := After(t, es[..|es| - 1], link);
      StaysShut(p.t, es[|es| - 1], link, p.calls);
    }
  }

  /** After mn_tcp_close no byte is accepted any more, whatever happens on this connection; every
      segment sent from then on still carries the stream as it was accepted before, and every FIN
      stands right behind the last byte accepted before the call. */
  lemma CloseIsFinal(t: Sock, es: seq<Event>, link: Link)
    requires Inv(t) && OneConnection(CloseDown(t), es, link)
    ensures var r := After(CloseDown(t), es, link);
            && r.t.acc == t.acc && (forall n: nat :: Accepts(r.t, n) == 0)
            && (forall s :: s in r.sent && s.fl.fin ==> s.data == [] && s.seqno == Wrap(t.iss + 1 + |t.acc|))
            && (forall s :: s in r.sent && s.data != [] ==>
                  exists off: nat :: off + |s.data| <= |t.acc| && CarriesAt(t, s, off))
  {
    hide Inv, CloseDown, After, OneConnection, Wire, Shut, Wrap, CanSend, Wf;
    var u := CloseDown(t);
    CloseDownInv(t);
    CloseShuts(t);
    StaysShutOver(u, es, link);
    Faithful(u, es, link);
    var r := After(u, es, link);
    forall n: nat ensures Accepts(r.t, n) == 0 {
      ShutAccepts(r.t, n);
    }
    forall s | s in r.sent && s.fl.fin ensures s.data == [] && s.seqno == Wrap(t.iss + 1 + |t.acc|) {
      WireFin(r.t, s);
    }
    forall s | s in r.sent && s.data != [] ensures exists off: nat :: off + |s.data| <= |t.acc| && CarriesAt(t, s, off) {
      var off := WireData(r.t, s);
      assert CarriesAt(t, s, off);
    }
  }

  /** The data of the segment is the accepted stream from position `off` on. */
  predicate CarriesAt(t: Sock, s: Segment, off: nat)
  {
    off + |s.data| <= |t.acc| && s.seqno == Wrap(t.iss + 1 + off) && s.data == t.acc[off..off + |s.data|]
  }

  lemma WireFin(t: Sock, s: Segment)
    requires Wire(t, s) && s.fl.fin
    ensures s.data == [] && s.seqno == Wrap(t.iss + 1 + |t.acc|)
  {
    hide Wrap;
    var off: nat :| Says(t, s, off);
  }

  lemma WireData(t: Sock, s: Segment) returns (off: nat)
    requires Wire(t, s) && s.data != []
    ensures CarriesAt(t, s, off)
  {
    hide Wrap;
    off :| Says(t, s, off);
  }

  // ----- queued data is marked -----

  /** Data that is queued behind what is in flight is marked as waiting. */
  predicate Marked(t: Sock) { t.sndLen > t.inflight ==> t.txPending }

  /** As much is queued, and no mark is lost. */
  predicate SameQueue(t: Sock, u: Sock) {
    u.sndLen - u.inflight == t.sndLen - t.inflight && (t.txPending ==> u.txPending)
  }

  lemma HandleAckQueue(t: Sock, ack: U32, now: U16)
    ensures SameQueue(t, HandleAck(t, ack, now))
  {
    hide AckNew, Acked, GrownCwnd;
  }

  lemma QueueTrans(t: Sock, u: Sock, v: Sock)
    requires SameQueue(t, u) && SameQueue(u, v)
    ensures SameQueue(t, v)
  {
  }

  lemma StageQueue(t: Sock, wnd: U16)
    ensures SameQueue(t, WithWindow(t, wnd)) && SameQueue(t, WantAck(t)) && SameQueue(t, t)
  {
  }

  lemma FinQueue(t: Sock)
    ensures SameQueue(t, TakeFin(t)) && SameQueue(t, OurFinAcked(t))
  {
    hide Wrap;
  }

  lemma DataQueue(t: Sock, data: seq<Byte>)
    ensures SameQueue(t, TakeData(t, data))
  {
    hide Wrap;
  }

  lemma InOrderQueue(t: Sock, s: Segment, now: U16)
    ensures SameQueue(t, InOrder(t, s, now))
  {
    hide HandleAck, WithWindow, TakeData, TakeFin, OurFinAcked, FinReached, SameQueue;
    var t0 := HandleAck(t, s.ackno, now);
    var t1 := WithWindow(t0, s.wnd);
    var t2 := TakeData(t1, s.data);
    var t3 := if FinReached(t1, s) then TakeFin(t2) else t2;
    HandleAckQueue(t, s.ackno, now);
    StageQueue(t0, s.wnd);
    QueueTrans(t, t0, t1);
    DataQueue(t1, s.data);
    QueueTrans(t, t1, t2);
    FinQueue(t2);
    StageQueue(t2, 0);
    QueueTrans(t, t2, t3);
    FinQueue(t3);
    QueueTrans(t, t3, OurFinAcked(t3));
  }

  lemma SyncedQueue(t: Sock, s: Segment, now: U16)
    ensures SameQueue(t, SyncedInput(t, s, now))
  {
    HandleAckQueue(t, s.ackno, now);
    HandleAckQueue(WantAck(t), s.ackno, now);
    StageQueue(t, 0);
    InOrderQueue(t, s, now);
    hide HandleAck, InOrder, WantAck, SameQueue;
    QueueTrans(t, WantAck(t), HandleAck(WantAck(t), s.ackno, now));
  }

  lemma RstQueue(t: Sock, s: Segment)
    requires Synced(t)
    ensures SameQueue(t, RstInput(t, s))
  {
    hide RstInWindow;
  }

  /** Outside the states in which data can be queued there is none. */
  lemma NothingQueued(t: Sock)
    requires Inv(t) && Live(t)
    ensures !Synced(t) || t.finSent ==> t.sndLen == 0
    ensures t.state == TimeWait ==> t.finSent
    ensures t.state == SynRcvd ==> !t.eof
  {
    hide Wrap;
  }

  lemma SegmentMarked(t: Sock, s: Segment, now: U16)
    requires Inv(t) && Live(t) && Marked(t)
    ensures Marked(SegmentInput(t, s, now))
  {
    hide RstInput, SynSentInput, SynRcvdInput, SyncedInput, Inv;
    if Synced(t) {
      RstQueue(t, s);
      SyncedQueue(t, s, now);
    } else {
      NothingQueued(t);
      SegmentKept(t, s, now);
    }
  }

  lemma RetransmitQueue(t: Sock, now: U16, link: Link, k: nat)
    requires Synced(t)
    ensures SameQueue(t, Retransmit(t, now, link, k).t)
  {
    if t.retries < MAX_RETRIES {
      var t1 := OneSegment(Restart(CountRetry(t), now));
      assert SameQueue(t, t1);
      hide OneSegment, Restart, CountRetry;
      AfterEmitFrame(t1, FL_DATA, link(k));
      AfterEmitFrame(t1, FL_FIN_ACK, link(k));
    }
    hide AfterEmit;
  }

  lemma FinAckQueue(t: Sock, now: U16, link: Link, k: nat)
    requires Synced(t)
    ensures SameQueue(t, SendFin(t, now, link, k).t) && SameQueue(t, SendAck(t, link, k).t)
  {
    AfterEmitFrame(t, FL_FIN_ACK, link(k));
    AfterEmitFrame(t, FL_ACK, link(k));
    hide AfterEmit;
  }

  lemma SendQueuedMarked(t: Sock, now: U16, link: Link, k: nat)
    ensures Marked(SendQueued(t, now, link, k).t)
  {
    hide SendLoop;
  }

  lemma PollMarked(t: Sock, now: U16, link: Link, k: nat)
    requires Inv(t) && Marked(t)
    ensures Marked(PollOne(t, now, link, k).t)
  {
    hide PollHandshake, PollTimeWait, Retransmit, SendQueued, SendFin, SendAck, TimerExpired, Outstanding, Inv;
    if Live(t) {
      NothingQueued(t);
      if Synced(t) && t.state != TimeWait {
        RetransmitQueue(t, now, link, k);
        SendQueuedMarked(t, now, link, k);
        FinAckQueue(t, now, link, k);
      } else {
        PollOnePolls(t, now, link, k);
      }
    }
  }

  lemma SendMarked(t: Sock, data: seq<Byte>)
    requires Marked(t)
    ensures Marked(SendBytes(t, data))
  {
  }

  lemma RecvMarked(t: Sock, cap: nat)
    requires Marked(t)
    ensures Marked(RecvBytes(t, cap))
  {
    assert SameQueue(t, Drain(t, Min(cap, t.rcvCount)));
    StageQueue(Drain(t, Min(cap, t.rcvCount)), 0);
    hide Drain, WantAck, EdgeMoved;
  }

  lemma CloseMarked(t: Sock)
    requires Marked(t)
    ensures Marked(CloseDown(t))
  {
    QueuesFin(t);
    Closes(t);
    hide QueueFin, ToClosed;
  }

  lemma AbortMarked(t: Sock, link: Link, k: nat)
    ensures Marked(Abort(t, link, k).t)
  {
    hide AfterEmit;
  }

  lemma EmptySyn(t: Sock, fl: Flags, r: Outcome, b: bool)
    requires t.sndLen == 0
    ensures Marked(SynDue(AfterEmit(t, fl, r), b))
  {
    AfterEmitFrame(t, fl, r);
    hide AfterEmit;
  }

  lemma CountersReset(t: Sock)
    ensures ResetCounters(t).sndLen == 0
  {
  }

  lemma ConnectMarked(t: Sock, ip: Addr, port: U16, localPort: U16, iss: U32, now: U16, link: Link, k: nat)
    requires Marked(t)
    ensures Marked(Connect(t, ip, port, localPort, iss, now, link, k).t)
  {
    hide ResetCounters, AfterEmit, SynDue, Marked, SegmentOf, Wrap;
    if t.state == Closed {
      CountersReset(t.(remoteIp := ip, remotePort := port, localPort := localPort,
                       iss := iss, sndUna := iss, sndNxt := Wrap(iss + 1), rcvNxt := 0));
      EmptySyn(Connecting(t, ip, port, localPort, iss, now), FL_SYN, link(k), link(k) != Ok);
    }
  }

  lemma ListenMarked(t: Sock, port: U16)
    requires Marked(t)
    ensures Marked(ListenOn(t, port))
  {
    hide ResetCounters;
    CountersReset(t.(localPort := port, remotePort := 0));
  }

  lemma ArriveMarked(t: Sock, src: Addr, s: Segment, iss: U32, now: U16, link: Link, k: nat)
    requires Inv(t) && Marked(t)
    ensures Marked(Arrive(t, src, s, iss, now, link, k).t)
  {
    hide Inv, ResetCounters, AfterEmit, SynDue, SegmentInput;
    if Live(t) {
      SegmentMarked(t, s, now);
    }
    CountersReset(t.(remoteIp := src, remotePort := s.sport));
    EmptySyn(Opening(t, src, s, iss, now), FL_SYN_ACK, link(k), link(k) != Ok);
  }

  lemma ApplyMarked(t: Sock, e: Event, link: Link, k: nat)
    requires Inv(t) && Marked(t)
    ensures Marked(Apply(t, e, link, k).t)
  {
    hide Inv, Marked, Connect, ListenOn, SendBytes, RecvBytes, CloseDown, Abort, Arrive, PollOne;
    match e
    case ESend(data) => SendMarked(t, data);
    case ERecv(cap) => RecvMarked(t, cap);
    case EClose => CloseMarked(t);
    case EAbort => AbortMarked(t, link, k);
    case EArrive(src, seg, iss, now) => ArriveMarked(t, src, seg, iss, now, link, k);
    case EPoll(now) => PollMarked(t, now, link, k);
    case EConnect(ip, port, localPort, iss, now) => ConnectMarked(t, ip, port, localPort, iss, now, link, k);
    case EListen(port) => ListenMarked(t, port);
  }

  lemma {:induction false} RunMarked(es: seq<Event>, link: Link)
    ensures Marked(After(Initial(), es, link).t)
  {
    hide Marked, Apply, Inv;
    if es == [] {
      FreshMarked();
    } else {
      RunMarked(es[..|es| - 1], link);
      Reached(es[..|es| - 1], link);
      var p := After(Initial(), es[..|es| - 1], link);
      ApplyMarked(p.t, es[|es| - 1], link, p.calls);
    }
  }

  lemma FreshMarked()
    ensures Marked(Initial())
  {
  }

  // ----- a used-up window -----

  /** Data is queued, none is in flight, and one of the two windows is closed. */
  predicate Stalled(t: Sock) {
    && (t.state == Established || t.state == CloseWait) && !t.finSent
    && t.sndLen > 0 && t.inflight == 0 && Min(t.sndWnd, t.cwnd) == 0
  }

  /** Neither an abort nor a segment for this socket. */
  predicate Undisturbed(t: Sock, e: Event) { !e.EAbort? && (e.EArrive? ==> !Owns(t, e.src, e.seg)) }

  predicate AllUndisturbed(t: Sock, es: seq<Event>, link: Link) {
    es == [] ||
    (AllUndisturbed(t, es[..|es| - 1], link) && Undisturbed(After(t, es[..|es| - 1], link).t, es[|es| - 1]))
  }

  lemma StepStalled(t: Sock, e: Event, link: Link, k: nat)
    requires Stalled(t) && t.txPending && Undisturbed(t, e)
    ensures var r := Apply(t, e, link, k); Stalled(r.t) && r.t.txPending && r.sent == [] && r.calls == k
  {
    hide SendBytes, RecvBytes, CloseDown, PollOne, Owns;
    match e
    case ESend(data) => SendStalled(t, data);
    case ERecv(cap) => RecvStalled(t, cap);
    case EClose => QueuesFin(t); CloseStalled(t);
    case EPoll(now) => PollStalled(t, now, link, k);
    case _ =>
  }

  lemma SendStalled(t: Sock, data: seq<Byte>)
    requires Stalled(t) && t.txPending
    ensures Stalled(SendBytes(t, data)) && SendBytes(t, data).txPending
  {
  }

  lemma RecvStalled(t: Sock, cap: nat)
    requires Stalled(t) && t.txPending
    ensures Stalled(RecvBytes(t, cap)) && RecvBytes(t, cap).txPending
  {
    var u := Drain(t, Min(cap, t.rcvCount));
    assert Stalled(u) && u.txPending;
    assert Stalled(WantAck(u)) && WantAck(u).txPending;
    hide Drain, WantAck, EdgeMoved, Stalled;
  }

  lemma CloseStalled(t: Sock)
    requires Stalled(t) && t.txPending
    ensures Stalled(CloseDown(t)) && CloseDown(t).txPending
  {
  }

  lemma PollStalled(t: Sock, now: U16, link: Link, k: nat)
    requires Stalled(t) && t.txPending
    ensures PollOne(t, now, link, k) == Step(t, [], k)
  {
    hide PollHandshake, PollTimeWait, TimerExpired, Retransmit, SendQueued, SendFin, SendAck;
    QueueStalled(t, now, link, k);
  }

  lemma QueueStalled(t: Sock, now: U16, link: Link, k: nat)
    requires Stalled(t) && t.txPending
    ensures SendQueued(t, now, link, k) == Step(t, [], k)
  {
    hide OfferNew, TxDue;
    assert SendLoop(t, 0, now, link, k) == Burst(t, [], k, Ok);
    MarkedAlready(t);
  }

  lemma MarkedAlready(t: Sock)
    requires t.txPending
    ensures TxDue(t, true) == t
  {
  }

  lemma {:induction false} StaysStalled(t: Sock, es: seq<Event>, link: Link)
    requires Stalled(t) && t.txPending && AllUndisturbed(t, es, link)
    ensures var r := After(t, es, link); Stalled(r.t) && r.t.txPending && r.sent == [] && r.calls == 0
  {
    hide Stalled, Undisturbed, Apply;
    if es != [] {
      StaysStalled(t, es[..|es| - 1], link);
      var p := After(t, es[..|es| - 1], link);
      StepStalled(p.t, es[|es| - 1], link, p.calls);
    }
  }

  /** There is no persist timer (section 3.8.6.1 of RFC 9293): a socket that has reached a state with
      data queued, nothing in flight and a closed window makes no transmission attempt at all, whatever
      the polls, the reads, the writes and the close that follow, not even for an acknowledgement that
      is due, until a segment for it arrives or it is aborted. */
  lemma NeverProbes(past: seq<Event>, before: Link, es: seq<Event>, link: Link)
    requires var t := After(Initial(), past, before).t; Stalled(t) && AllUndisturbed(t, es, link)
    ensures var r := After(After(Initial(), past, before).t, es, link);
            Stalled(r.t) && r.sent == [] && r.calls == 0
  {
    var t := After(Initial(), past, before).t;
    RunMarked(past, before);
    hide After, Initial, AllUndisturbed;
    StaysStalled(t, es, link);
  }
}
