/**
  What holds of a socket after any sequence of calls, segments and polls from mn_tcp_init on,
  whatever the application, the peer and the link do.
*/
module TcpRuns {
  import opened Words
  import opened Tcp
  import opened TcpInvariants
  import opened TcpSegments
  import opened TcpWindow
  import opened TcpEndToEnd
  import Net = TcpNetwork

  /** A socket after a run, with everything the link has accepted from it. */
  function After(t: Sock, es: seq<Event>, link: Link): Step {
    if es == [] then Step(t, [], 0)
    else
      var p := After(t, es[..|es| - 1], link);
      var r := Apply(p.t, es[|es| - 1], link, p.calls);
      Step(r.t, p.sent + r.sent, r.calls)
  }

  /** A socket after mn_tcp_init. */
  function Initial(): (t: Sock)
    ensures Inv(t)
  {
    FRESH
  }

  lemma {:induction false} RunInv(t: Sock, es: seq<Event>, link: Link)
    requires Inv(t)
    ensures Inv(After(t, es, link).t)
  {
    hide Inv, Apply, Wf;
    if es != [] {
      RunInv(t, es[..|es| - 1], link);
      var p := After(t, es[..|es| - 1], link);
      ApplyInv(p.t, es[|es| - 1], link, p.calls);
    }
  }

  /** Every reachable socket satisfies the invariant. */
  lemma Reached(es: seq<Event>, link: Link)
    ensures Inv(After(Initial(), es, link).t)
  {
    hide Inv, Initial;
    RunInv(Initial(), es, link);
  }

  // ----- the invariant in the terms of the C struct -----

  /** What is unacknowledged: our SYN, the bytes in flight, our FIN. */
  function Unacknowledged(t: Sock): nat {
    if t.state == SynSent || t.state == SynRcvd then 1
    else t.inflight + if t.finSent && t.sndUna != t.sndNxt then 1 else 0
  }

  /** Sequence accounting: the sequence space between the oldest unacknowledged number and the
      next one, the bytes accepted, and the states in which our FIN is out. */
  predicate Accounted(t: Sock) {
    Live(t) ==>
      && Wrap(t.sndNxt - t.sndUna) == Unacknowledged(t)
      && t.inflight <= t.sndLen <= SNDBUF
      && t.sndNxt == Wrap(t.iss + 1 + Retired(t) + t.inflight + FinLen(t))
      && |t.acc| == Retired(t) + t.sndLen
      && (t.finSent <==> FinState(t.state))
      && (t.finSent ==> t.sndLen == 0)
  }

  lemma InvAccounted(t: Sock)
    requires Inv(t)
    ensures Accounted(t)
  {
    hide Inv, Wrap;
    if Synced(t) {
      AckSpan(t);
      Synchronized(t);
    } else if Live(t) {
      HalfOpen(t);
    }
  }

  /** The accounting is right in every reachable state. */
  lemma Accounting(es: seq<Event>, link: Link)
    ensures Accounted(After(Initial(), es, link).t)
  {
    hide *;
    Reached(es, link);
    InvAccounted(After(Initial(), es, link).t);
  }

  lemma Synchronized(t: Sock)
    requires Inv(t) && Synced(t)
    ensures t.sndNxt == Wrap(t.iss + 1 + Retired(t) + t.inflight + FinLen(t))
    ensures (t.finSent <==> FinState(t.state)) && (t.finSent ==> t.sndLen == 0)
  {
    hide Wrap;
  }

  lemma HalfOpen(t: Sock)
    requires Inv(t) && (t.state == SynSent || t.state == SynRcvd)
    ensures Wrap(t.sndNxt - t.sndUna) == 1 && t.sndNxt == Wrap(t.iss + 1)
    ensures Retired(t) == 0 && t.inflight == 0 && t.sndLen == 0 && !t.finSent
  {
    WrapDiff(t.iss, 1);
  }

  function Pow2(n: nat): nat { if n == 0 then 1 else 2 * Pow2(n - 1) }

  lemma {:induction false} BackoffIsDoubling(n: nat)
    ensures Backoff(n) == Min(RTO_INITIAL * Pow2(n), RTO_MAX)
    ensures n >= 3 ==> Pow2(n) >= 8
  {
    if n > 0 {
      BackoffIsDoubling(n - 1);
    }
  }

  /** The retransmission timeout is 50 ticks doubled per retry, at most 400; a live socket has
      retried at most five times. */
  lemma Timeouts(es: seq<Event>, link: Link)
    ensures var t := After(Initial(), es, link).t;
            t.rto == Min(RTO_INITIAL * Pow2(t.retries), RTO_MAX) && (Live(t) ==> t.retries <= MAX_RETRIES)
  {
    var t := After(Initial(), es, link).t;
    BackoffIsDoubling(t.retries);
    hide After, Backoff, Pow2;
  }

  /** The congestion window is a multiple of the peer's segment size, which never exceeds ours: 1 to 4
      times that size once the handshake is done, and at most 4 times before. */
  lemma CongestionWindow(es: seq<Event>, link: Link)
    ensures var t := After(Initial(), es, link).t;
            && t.peerMss <= MSS
            && (exists n: nat :: n <= CWND_MAX && (Synced(t) ==> n >= 1) && t.cwnd == n * t.peerMss)
  {
    Reached(es, link);
    var t := After(Initial(), es, link).t;
    hide After, Initial;
    var n := CwndSegments(t);
    assert t.cwnd == n * t.peerMss;
  }

  lemma CwndSegments(t: Sock) returns (n: nat)
    requires Inv(t)
    ensures n <= CWND_MAX && (Synced(t) ==> n >= 1) && t.cwnd == n * t.peerMss
  {
    n := if t.cwnd == t.peerMss then 1 else if t.cwnd == 2 * t.peerMss then 2
         else if t.cwnd == 3 * t.peerMss then 3 else if t.cwnd == 4 * t.peerMss then 4 else 0;
  }

  /** No forgotten window update: in a receiving state, once a segment carrying ACK has been
      built, an advertised edge at or behind our position and room in the ring mean that an
      acknowledgement is due. */
  lemma WindowUpdates(es: seq<Event>, link: Link)
    ensures var t := After(Initial(), es, link).t;
            Receiving(t) && t.edgeAbs > 0 && RcvFree(t) > 0 && (t.edgeAbs <= t.rcvAbs || t.advEdge == t.rcvNxt)
            ==> t.ackPending
  {
    Reached(es, link);
    var t := After(Initial(), es, link).t;
    hide After, Initial;
    if Receiving(t) && t.edgeAbs > 0 && t.advEdge == t.rcvNxt {
      AtEdge(t);
    }
    hide Wrap;
  }

  /** No stale window: the edge the peer was last told lags behind by less than 256 bytes, unless an
      acknowledgement is due. */
  lemma WindowLag(es: seq<Event>, link: Link)
    ensures var t := After(Initial(), es, link).t;
            Receiving(t) && t.edgeAbs > 0 && !t.ackPending ==> t.edgeAbs <= Edge(t) < t.edgeAbs + WINUPDATE_GROW
  {
    Reached(es, link);
    hide After, Initial, Wrap;
  }

  /** Past the handshake the state says no more than whose FINs are out: ours sent, the peer's taken. */
  lemma StateTells(es: seq<Event>, link: Link)
    ensures var t := After(Initial(), es, link).t;
            Synced(t) ==>
              && (t.state == Established <==> !t.finSent && !t.eof)
              && (t.state == CloseWait <==> !t.finSent && t.eof)
              && (t.state == FinWait1 || t.state == FinWait2 <==> t.finSent && !t.eof)
              && (t.state == Closing || t.state == LastAck || t.state == TimeWait <==> t.finSent && t.eof)
  {
    Reached(es, link);
    hide After, Initial, Wrap;
  }

  lemma AtEdge(t: Sock)
    requires Inv(t) && Receiving(t) && t.edgeAbs > 0 && t.advEdge == t.rcvNxt
    ensures t.edgeAbs <= t.rcvAbs
  {
    if t.edgeAbs >= t.rcvAbs {
      WrapInjective(t.irs, t.edgeAbs, t.rcvAbs);
    }
  }

  // ----- what has been sent -----

  /** Everything ever sent fits the transmit buffer with its Ethernet and IPv4 headers. */
  lemma {:induction false} FramesFit(es: seq<Event>, link: Link)
    ensures forall s :: s in After(Initial(), es, link).sent ==>
              |s.data| <= MSS && (|s.opts| == 0 || (|s.opts| == 4 && s.data == [])) && 34 + 20 + |s.opts| + |s.data| <= 1518
  {
    hide Inv, Apply, Initial;
    if es != [] {
      var p := After(Initial(), es[..|es| - 1], link);
      var r := Apply(p.t, es[|es| - 1], link, p.calls);
      FramesFit(es[..|es| - 1], link);
      Reached(es[..|es| - 1], link);
      ApplyGenuine(p.t, es[|es| - 1], link, p.calls);
      forall s | s in r.sent ensures |s.data| <= MSS && (|s.opts| == 0 || (|s.opts| == 4 && s.data == [])) {
        GenuineFits(r.t, s);
      }
    }
  }

  lemma GenuineFits(t: Sock, s: Segment)
    requires Genuine(t, s)
    ensures |s.data| <= MSS && (|s.opts| == 0 || (|s.opts| == 4 && s.data == []))
  {
  }

  /** The step begins another connection on the socket. */
  predicate Opens(t: Sock, e: Event) {
    match e
    case EConnect(_, _, _, _, _) => t.state == Closed
    case EListen(port) => t.state == Closed && port != 0
    case EArrive(_, seg, _, _) => BareSyn(seg) && Listens(t, seg)
    case _ => false
  }

  /** A run during which no other connection is begun. */
  predicate OneConnection(t: Sock, es: seq<Event>, link: Link) {
    es == [] ||
    (OneConnection(t, es[..|es| - 1], link) && !Opens(After(t, es[..|es| - 1], link).t, es[|es| - 1]))
  }

  /** Within a connection what has been said on the wire stays true. */
  lemma StepWire(t: Sock, e: Event, link: Link, k: nat, s: Segment)
    requires Inv(t) && !Opens(t, e) && Wire(t, s)
    ensures Wire(Apply(t, e, link, k).t, s)
  {
    hide Inv, Wire, Apply, Wf;
    var u := Apply(t, e, link, k).t;
    if Net.Silent(e) {
      Net.SilentQuiet(t, e, link, k);
      QuietWire(t, u, s);
    } else if e.EArrive? {
      ArriveWire(t, e, link, k, s);
    } else {
      NothingHappens(t, e, link, k);
    }
  }

  lemma NothingHappens(t: Sock, e: Event, link: Link, k: nat)
    requires !Opens(t, e) && (e.EConnect? || e.EListen?)
    ensures Apply(t, e, link, k).t == t
  {
    hide Connecting, ResetCounters;
  }

  lemma QuietWire(t: Sock, u: Sock, s: Segment)
    requires Net.Quiet(t, u) && Wire(t, s)
    ensures Wire(u, s)
  {
    hide Wire, Stream;
    Net.WireGrows(t, u, s);
  }

  lemma ArriveWire(t: Sock, e: Event, link: Link, k: nat, s: Segment)
    requires Inv(t) && !Opens(t, e) && Wire(t, s) && e.EArrive?
    ensures Wire(Apply(t, e, link, k).t, s)
  {
    hide Inv, Wire, SegmentInput, PassiveOpen, Kept, Wf;
    if Owns(t, e.src, e.seg) {
      var u := SegmentInput(t, e.seg, e.now);
      if t.state == SynSent {
        Net.HandshakeKnown(t);
        Net.WireBefore(t, u, s);
      } else {
        SegmentKept(t, e.seg, e.now);
        StaysOpen(t, e.seg, e.now);
        Net.KeptGrows(t, u);
        Net.WireGrows(t, u, s);
      }
    }
  }

  lemma StaysOpen(t: Sock, s: Segment, now: U16)
    requires Live(t)
    ensures t.state != Closed
  {
  }

  /** Sender refinement: whatever the peer and the link do, every segment ever sent on a
      connection, first transmission or retransmission, carries exactly the bytes of the
      accepted stream at its sequence number, and a FIN stands right after the last of them. */
  lemma {:induction false} Faithful(t: Sock, es: seq<Event>, link: Link)
    requires Inv(t) && OneConnection(t, es, link)
    ensures forall s :: s in After(t, es, link).sent ==> Wire(After(t, es, link).t, s)
  {
    hide Inv, Wire, Apply, Opens, Genuine, Wf;
    if es != [] {
      var e, p := es[|es| - 1], After(t, es[..|es| - 1], link);
      var r := Apply(p.t, e, link, p.calls);
      Faithful(t, es[..|es| - 1], link);
      RunInv(t, es[..|es| - 1], link);
      ApplyGenuine(p.t, e, link, p.calls);
      forall s | s in p.sent + r.sent ensures Wire(r.t, s) {
        if s in r.sent {
          Net.GenuineWire(r.t, s);
        } else {
          StepWire(p.t, e, link, p.calls, s);
        }
      }
    }
  }

  /** A live socket past its SYN does not send another. */
  lemma NoSynAgain(t: Sock, e: Event, link: Link, k: nat)
    requires Inv(t) && Live(t) && t.state != SynSent
    ensures Apply(t, e, link, k).t.state != SynSent
  {
    hide Inv, SendBytes, RecvBytes, CloseDown, Abort, PollOne, SegmentInput, Establish, Wf;
    if Net.Silent(e) {
      Net.SilentStage(t, e, link, k);
    } else if e.EArrive? {
      SegmentNoSyn(t, e.seg, e.now);
    }
  }

  lemma SegmentNoSyn(t: Sock, s: Segment, now: U16)
    requires Live(t) && t.state != SynSent
    ensures SegmentInput(t, s, now).state != SynSent
  {
    hide SyncedInput, Establish, SynDue, Relisten;
    if Synced(t) {
      Net.SyncedRole(t, s, now);
    } else {
      Net.EstablishedNow(t, s);
      Net.SyncedInputRole(Establish(t, s), s, now);
      Marked(t);
    }
  }

  lemma Marked(t: Sock)
    ensures SynDue(t, true).state == t.state && Relisten(t).state == Listen
  {
  }

  /** The advertised right edge, the position and the received stream never go back while a
      connection lives. */
  lemma {:induction false} NeverGoesBack(t: Sock, es: seq<Event>, link: Link)
    requires Inv(t) && forall i :: 0 <= i <= |es| ==> Live(After(t, es[..i], link).t)
    ensures Later(t, After(t, es, link).t)
    ensures t.state != SynSent ==> After(t, es, link).t.state != SynSent
  {
    hide Inv, Apply, Live, Later, Wf;
    if es == [] {
      LaterRefl(t);
    } else {
      var before := es[..|es| - 1];
      assert forall i :: 0 <= i <= |before| ==> before[..i] == es[..i];
      NeverGoesBack(t, before, link);
      RunInv(t, before, link);
      var p := After(t, before, link);
      assert Live(p.t);
      NeverRetreats(p.t, es[|es| - 1], link, p.calls);
      if t.state != SynSent {
        NoSynAgain(p.t, es[|es| - 1], link, p.calls);
      }
      LaterTrans(t, p.t, Apply(p.t, es[|es| - 1], link, p.calls).t);
    }
  }

  /** Every promise is kept: whatever happened since an edge was advertised, a segment that starts
      where the socket now is and ends inside that edge is accepted in full. */
  lemma PromisesKept(t: Sock, es: seq<Event>, link: Link, s: Segment, now: U16)
    requires Inv(t) && forall i :: 0 <= i <= |es| ==> Live(After(t, es[..i], link).t)
    requires var u := After(t, es, link).t;
             && Receiving(u) && s.fl.ack && !s.fl.rst && s.seqno == u.rcvNxt
             && u.rcvAbs + |s.data| <= t.edgeAbs
    ensures var u := After(t, es, link).t; SegmentInput(u, s, now).got == u.got + s.data
  {
    hide Inv, SegmentInput, Wf;
    RunInv(t, es, link);
    NeverGoesBack(t, es, link);
    PromiseKept(After(t, es, link).t, s, now);
  }

  lemma LaterTrans(t: Sock, u: Sock, v: Sock)
    requires Later(t, u) && Later(u, v) && (t.state != SynSent ==> u.state != SynSent)
    ensures Later(t, v)
  {
  }

  // ----- acknowledgements owed -----

  /** A poll that sends nothing although an acknowledgement is due: it gives up, or data is
      queued behind a window that is used up, and that branch returns. */
  predicate Stuck(t: Sock, now: U16) {
    if Outstanding(t) && TimerExpired(t, now) then t.retries == MAX_RETRIES
    else t.txPending && t.sndLen > t.inflight && Min(t.sndWnd, t.cwnd) <= t.inflight
  }

  /** An acknowledgement that is due leaves with the next poll the link accepts, exactly if the
      poll is not stuck: queued data that no window admits also holds back the acknowledgement. */
  lemma AckLeaves(t: Sock, now: U16, link: Link, k: nat)
    requires Inv(t) && Synced(t) && t.state != TimeWait && t.ackPending && link(k) == Ok
    ensures var sent := PollOne(t, now, link, k).sent;
            if Stuck(t, now) then sent == []
            else LeadsWithAck(t, sent)
  {
    hide Inv, AfterEmit, Retransmit, SendLoop, SendFin, SendAck, TimerExpired, Wf;
    NoSegmentSize(t);
    RetransmitAcks(t, now, link, k);
    LoopAcks(t, Min(t.sndWnd, t.cwnd), now, link, k);
    LastAcks(t, now, link, k);
  }

  lemma NoSegmentSize(t: Sock)
    ensures t.peerMss == 0 ==> Min(t.sndWnd, t.cwnd) == 0
  {
  }

  predicate LeadsWithAck(t: Sock, sent: seq<Segment>) {
    sent != [] && sent[0].fl.ack && !sent[0].fl.rst && !sent[0].fl.syn && sent[0].ackno == t.rcvNxt
  }

  lemma RetransmitAcks(t: Sock, now: U16, link: Link, k: nat)
    requires Synced(t) && link(k) == Ok
    ensures var sent := Retransmit(t, now, link, k).sent;
            if t.retries == MAX_RETRIES then sent == [] else LeadsWithAck(t, sent)
  {
    hide AfterEmit, GiveUp;
    if t.retries < MAX_RETRIES {
      var t1 := OneSegment(Restart(CountRetry(t), now));
      assert t1.rcvNxt == t.rcvNxt;
      hide OneSegment, Restart, CountRetry;
    }
  }

  lemma LoopAcks(t: Sock, limit: U16, now: U16, link: Link, k: nat)
    requires (t.peerMss == 0 ==> limit == 0) && link(k) == Ok
    ensures var sent := SendLoop(t, limit, now, link, k).sent;
            if MayBurst(t, limit) then LeadsWithAck(t, sent) else sent == []
  {
    hide AfterEmit, AfterNew;
  }

  lemma LastAcks(t: Sock, now: U16, link: Link, k: nat)
    requires Synced(t) && link(k) == Ok
    ensures LeadsWithAck(t, SendFin(t, now, link, k).sent) && LeadsWithAck(t, SendAck(t, link, k).sent)
  {
    hide AfterEmit, AfterFin;
  }
}
