/**
  Two sockets and a link that takes everything: the handshake, a flight of data and its acknowledgement,
  from call to call and from segment to segment.
*/
module TcpTransfer {
  import opened Words
  import opened Common
  import opened Tcp
  import opened TcpInvariants
  import opened TcpSegments
  import opened TcpWindow
  import opened TcpDispatch
  import opened TcpClosing
  import opened TcpDelivery
  import opened TcpProgress
  import Calls = TcpCalls
  import Runs = TcpRuns
  import Codec = TcpCodec
  import Net = TcpNetwork

  /** The link accepts every attempt. */
  ghost predicate Up(link: Link) { forall k: nat :: link(k) == Ok }

  // ----- the handshake -----

  /** Freshly established: nothing sent, nothing received, both sequence numbers and segment sizes known. */
  predicate JustOpen(t: Sock, irs: U32) {
    && t.state == Established && t.irs == irs && t.rcvNxt == Wrap(irs + 1) && t.sndUna == t.sndNxt == Wrap(t.iss + 1)
    && t.sndLen == 0 && t.rcvCount == 0 && !t.eof && !t.finQueued
    && t.peerMss == MSS && t.cwnd == 2 * MSS && t.sndWnd == WINDOW_CAP
  }

  lemma OurSize()
    ensures TakeMss(MSS_OPTION, 536) == MSS
  {
    Codec.OurMss(536);
  }

  /** Before the handshake ends nothing is queued. */
  lemma NothingYet(t: Sock)
    requires Inv(t) && (t.state == SynSent || t.state == SynRcvd)
    ensures t.sndLen == 0 && t.inflight == 0 && t.rcvCount == 0 && !t.eof && !t.finQueued && !t.finSent
    ensures t.sndUna == t.iss && t.sndNxt == Wrap(t.iss + 1)
  {
    hide Wrap;
  }

  lemma HearsAnswer(t: Sock, s: Segment, now: U16)
    requires Inv(t) && t.state == SynSent && s.fl == FL_SYN_ACK && s.ackno == t.sndNxt
    requires s.opts == MSS_OPTION && s.wnd == WINDOW_CAP
    ensures var u := SegmentInput(t, s, now);
            JustOpen(u, s.seqno) && u.ackPending && u.iss == t.iss && Inv(u) && SameTuple(t, u)
  {
    hide Inv, SynAcked, TakeMss, Wrap;
    NothingYet(t);
    Codec.OurMss(t.peerMss);
    AnswerEstablishes(t, s, now);
    SynAckedRest(t, s);
    SynAckedTuple(t, s);
    SegmentInputInv(t, s, now);
  }

  lemma SynAckedRest(t: Sock, s: Segment)
    ensures var u := SynAcked(t, s);
            && u.sndLen == t.sndLen && u.rcvCount == t.rcvCount && u.eof == t.eof && u.finQueued == t.finQueued
            && u.iss == t.iss
  {
    hide Wrap, TakeMss, Wrap16;
  }

  lemma AcksBack(t: Sock, irs: U32, now: U16, link: Link, k: nat)
    requires Inv(t) && JustOpen(t, irs) && t.ackPending && link(k) == Ok
    ensures var r := PollOne(t, now, link, k);
            && JustOpen(r.t, irs) && !r.t.ackPending && r.t.iss == t.iss && |r.sent| == 1
            && var s := r.sent[0];
               && s.fl == FL_ACK && s.seqno == t.sndNxt && s.ackno == t.rcvNxt && s.data == [] && s.wnd == WINDOW_CAP
  {
    hide Inv, AfterEmit, AckDone, Retransmit, SendQueued, SendFin, Wrap;
    Sending(t);
    AfterEmitFrame(t, FL_ACK, Ok);
    DoneFields(AfterEmit(t, FL_ACK, Ok));
  }

  lemma DoneFields(t: Sock)
    ensures var u := AckDone(t); !u.ackPending && u == t.(ackPending := false)
  {
  }

  lemma HearsAck(t: Sock, s: Segment, now: U16)
    requires Inv(t) && t.state == SynRcvd && s.fl == FL_ACK && s.ackno == t.sndNxt && s.seqno == t.rcvNxt
    requires s.data == [] && s.wnd == WINDOW_CAP && t.peerMss == MSS
    ensures var u := SegmentInput(t, s, now); JustOpen(u, t.irs) && u.iss == t.iss
  {
    hide Inv, SegmentInput, Establish, Wrap, AckNew;
    NothingYet(t);
    RcvdPosition(t);
    AckEstablishes(t, s, now);
    EstablishInv(t, s);
    EstablishedFields(t, s);
    EstablishedRest(t, s);
    var t1 := Establish(t, s);
    NotNew(t1, s);
    WrapSame(t1.rcvNxt);
    AckTaken(t1, s, now);
    InOrderTaken(t1, s, now);
    SegmentKept(t1, s, now);
  }

  lemma RcvdPosition(t: Sock)
    requires Inv(t) && t.state == SynRcvd
    ensures t.rcvNxt == Wrap(t.irs + 1)
  {
    hide Wrap;
  }

  lemma EstablishedRest(t: Sock, s: Segment)
    ensures var u := Establish(t, s);
            && u.sndLen == t.sndLen && u.inflight == t.inflight && u.rcvCount == t.rcvCount && u.eof == t.eof
            && u.finQueued == t.finQueued && u.iss == t.iss && u.irs == t.irs && u.finSent == t.finSent
            && u.rcvNxt == t.rcvNxt
  {
  }

  lemma NotNew(t: Sock, s: Segment)
    requires s.ackno == t.sndUna
    ensures !AckNew(t, s.ackno)
  {
    WrapZero(s.ackno, t.sndUna);
    hide Wrap;
  }

  /** Three segments open the connection: mn_tcp_connect on one side and mn_tcp_listen on the port on the other, from
      any closed sockets, and over a link that takes everything the SYN, the SYN|ACK and the ACK of the next
      poll leave both sides established, each at the other's position. */
  lemma Handshake(a: Sock, ipA: Addr, b: Sock, ipB: Addr, port: U16, localPort: U16, issA: U32, issB: U32,
                  now: U16, later: U16, link: Link, k: nat)
    requires Inv(a) && Inv(b) && a.state == Closed && b.state == Closed && port != 0 && Up(link)
    ensures var a0 := Apply(a, EConnect(ipB, port, localPort, issA, now), link, k);
            && |a0.sent| == 1
            && var b1 := Apply(ListenOn(b, port), EArrive(ipA, a0.sent[0], issB, now), link, k);
               && |b1.sent| == 1
               && var a1 := Apply(a0.t, EArrive(ipB, b1.sent[0], 0, now), link, k).t;
                  var a2 := PollOne(a1, later, link, k);
                  && |a2.sent| == 1
                  && var b2 := Apply(b1.t, EArrive(ipA, a2.sent[0], 0, later), link, k).t;
                     && JustOpen(a2.t, issB) && JustOpen(b2, issA) && a2.t.iss == issA && b2.iss == issB
                     && Mirrored(a2.t, ipA, b2, ipB)
  {
    hide Inv, Apply, ListenOn, PollOne, SegmentInput, Owns, JustOpen, TakeMss;
    var ev := EConnect(ipB, port, localPort, issA, now);
    var a0 := Apply(a, ev, link, k);
    SynIsHeard(a, ipB, port, localPort, issA, now, link, k, b);
    ConnectEnds(a, ev, link, k);
    ApplyInv(a, ev, link, k);
    NothingYet(a0.t);
    ListenInv(b, port);
    var s := a0.sent[0];
    ListenIs(b, port, link, k);
    var b0 := ListenOn(b, port);
    var ev1 := EArrive(ipA, s, issB, now);
    SynWindow(a, ev, link, k);
    ListenerAnswers(b0, ipA, s, issB, now, link, k);
    ApplyInv(b0, ev1, link, k);
    var b1 := Apply(b0, ev1, link, k);
    OurSize();
    assert Mirrored(b1.t, ipB, a0.t, ipA);
    SentIsOwned(b0, ipB, a0.t, ipA, ev1, link, k);
    var s1 := b1.sent[0];
    Taken(a0.t, ipB, s1, 0, now, link, k);
    HearsAnswer(a0.t, s1, now);
    var a1 := SegmentInput(a0.t, s1, now);
    Second(a0.t, a1, b1.t, ipA, ipB, s1, issA, issB, now, later, link, k);
  }

  /** The second half of it. */
  lemma Second(a0: Sock, a1: Sock, b1: Sock, ipA: Addr, ipB: Addr, s1: Segment, issA: U32, issB: U32,
               now: U16, later: U16, link: Link, k: nat)
    requires Inv(a1) && JustOpen(a1, issB) && a1.ackPending && a1.iss == issA && Up(link)
    requires Inv(b1) && b1.state == SynRcvd && b1.irs == issA && b1.iss == issB && b1.peerMss == MSS
    requires Mirrored(a1, ipA, b1, ipB)
    ensures var a2 := PollOne(a1, later, link, k);
            && |a2.sent| == 1
            && var b2 := Apply(b1, EArrive(ipA, a2.sent[0], 0, later), link, k).t;
               && JustOpen(a2.t, issB) && JustOpen(b2, issA) && a2.t.iss == issA && b2.iss == issB
               && Mirrored(a2.t, ipA, b2, ipB)
  {
    hide Inv, Apply, PollOne, SegmentInput, Owns, Wrap;
    AcksBack(a1, issB, later, link, k);
    PollSameTuple(a1, later, link, k);
    var a2 := PollOne(a1, later, link, k);
    PollApplied(a1, later, link, k);
    SentIsOwned(a1, ipA, b1, ipB, EPoll(later), link, k);
    Taken(b1, ipA, a2.sent[0], 0, later, link, k);
    NothingYet(b1);
    RcvdPosition(b1);
    HearsAck(b1, a2.sent[0], later);
    SegmentTuple(b1, a2.sent[0], later);
  }

  lemma PollApplied(t: Sock, now: U16, link: Link, k: nat)
    ensures Apply(t, EPoll(now), link, k) == PollOne(t, now, link, k)
  {
    hide PollOne;
  }

  lemma PollSameTuple(t: Sock, now: U16, link: Link, k: nat)
    requires Inv(t)
    ensures SameTuple(t, PollOne(t, now, link, k).t)
  {
    HandshakeEof(t);
    PollOnePolls(t, now, link, k);
    PollTuple(t, PollOne(t, now, link, k).t);
    hide PollOne, Inv;
  }

  lemma Taken(t: Sock, src: Addr, s: Segment, iss: U32, now: U16, link: Link, k: nat)
    requires Owns(t, src, s)
    ensures Apply(t, EArrive(src, s, iss, now), link, k) == Step(SegmentInput(t, s, now), [], k)
  {
    hide SegmentInput, PassiveOpen;
  }

  lemma ListenIs(t: Sock, port: U16, link: Link, k: nat)
    ensures Apply(t, EListen(port), link, k).t == ListenOn(t, port)
  {
    hide ListenOn;
  }

  /** The ends of a socket that connects. */
  lemma ConnectEnds(t: Sock, e: Event, link: Link, k: nat)
    requires t.state == Closed && e.EConnect?
    ensures var u := Apply(t, e, link, k).t;
            u.localPort == e.localPort && u.remotePort == e.port && u.remoteIp == e.ip && u.iss == e.iss
  {
    hide AfterEmit, Connecting, SynDue;
    var u := Connecting(t, e.ip, e.port, e.localPort, e.iss, e.now);
    IssOf(t, e.ip, e.port, e.localPort, e.iss, e.now);
    AfterEmitFrame(u, FL_SYN, link(k));
    DueTuple(AfterEmit(u, FL_SYN, link(k)), link(k) != Ok);
    DueFields(AfterEmit(u, FL_SYN, link(k)), link(k) != Ok);
  }

  /** Our SYN offers the largest window and comes from our port. */
  lemma SynWindow(t: Sock, e: Event, link: Link, k: nat)
    requires t.state == Closed && e.EConnect? && link(k) == Ok
    ensures var r := Apply(t, e, link, k);
            |r.sent| == 1 && r.sent[0].sport == e.localPort && r.sent[0].dport == e.port && r.sent[0].wnd == WINDOW_CAP
  {
    hide AfterEmit, Connecting, SynDue;
    IssOf(t, e.ip, e.port, e.localPort, e.iss, e.now);
    ConnectingEmpty(t, e.ip, e.port, e.localPort, e.iss, e.now);
  }

  lemma ConnectingEmpty(t: Sock, ip: Addr, port: U16, localPort: U16, iss: U32, now: U16)
    ensures Connecting(t, ip, port, localPort, iss, now).rcvCount == 0
  {
    hide Wrap;
  }

  /** The last ACK of the handshake is not repeated: to a socket past its handshake the peer's SYN|ACK once more
      means nothing, and none is owed for it, so that a peer that has lost the ACK gives up unless data or a
      FIN follow. */
  lemma RepeatedSynAck(t: Sock, s: Segment, now: U16)
    requires Synced(t) && s.fl == FL_SYN_ACK && s.data == [] && s.seqno != t.rcvNxt && !AckNew(t, s.ackno)
    ensures SegmentInput(t, s, now) == t
  {
    hide AckNew, Retire, InOrder, WantAck;
  }

  // ----- a flight of data -----

  /** Segments that carry data one after the other from sequence number `q` on. */
  predicate Consecutive(q: U32, ss: seq<Segment>)
    decreases |ss|
  {
    ss == [] ||
    (ss[0].fl == FL_DATA && ss[0].seqno == q && ss[0].data != [] && Consecutive(Wrap(q + |ss[0].data|), ss[1..]))
  }

  lemma {:induction false} BurstConsecutive(t: Sock, limit: U16, now: U16, link: Link, k: nat)
    requires t.peerMss == 0 ==> limit == 0
    ensures Consecutive(t.sndNxt, SendLoop(t, limit, now, link, k).sent)
    decreases t.sndLen - t.inflight
  {
    if MayBurst(t, limit) && link(k) == Ok {
      hide AfterEmit, AfterNew, NextSize, SegmentOf, Wf, Wrap, Consecutive;
      var n, t1 := NextSize(t, limit), AfterEmit(t, FL_DATA, Ok);
      AfterEmitFrame(t, FL_DATA, Ok);
      AfterNewFrame(t1, n, now);
      NewNext(t1, n, now);
      BurstConsecutive(AfterNew(t1, n, now), limit, now, link, k + 1);
      OneMore(t, n, SendLoop(AfterNew(t1, n, now), limit, now, link, k + 1).sent);
    }
  }

  lemma NewNext(t: Sock, n: nat, now: U16)
    requires t.inflight + n <= t.sndLen
    ensures AfterNew(t, n, now).sndNxt == Wrap(t.sndNxt + n)
  {
    hide Wrap;
  }

  lemma OneMore(t: Sock, n: nat, rest: seq<Segment>)
    requires 0 < n && t.inflight + n <= t.sndLen && Consecutive(Wrap(t.sndNxt + n), rest)
    ensures Consecutive(t.sndNxt, [SegmentOf(t, FL_DATA, t.sndNxt, t.inflight, n, false)] + rest)
  {
    var s := SegmentOf(t, FL_DATA, t.sndNxt, t.inflight, n, false);
    assert |s.data| == n && ([s] + rest)[1..] == rest;
    hide Wrap, SegmentOf;
  }

  /** The segments arrive one by one. */
  function DeliverAll(t: Sock, src: Addr, ss: seq<Segment>, now: U16, link: Link, k: nat): Sock
    decreases |ss|
  {
    if ss == [] then t
    else DeliverAll(Apply(t, EArrive(src, ss[0], 0, now), link, k).t, src, ss[1..], now, link, k)
  }

  /** What a receiver with room for it makes of a flight: all of it, in order. */
  lemma {:induction false} AllTaken(t: Sock, src: Addr, ss: seq<Segment>, now: U16, link: Link, k: nat)
    requires Inv(t) && Receiving(t) && Consecutive(t.rcvNxt, ss) && |Calls.Payload(ss)| <= RcvFree(t)
    requires forall s :: s in ss ==> Owns(t, src, s)
    ensures var u := DeliverAll(t, src, ss, now, link, k);
            && Inv(u) && Receiving(u) && SameTuple(t, u) && u.got == t.got + Calls.Payload(ss)
            && u.rcvNxt == Wrap(t.rcvNxt + |Calls.Payload(ss)|) && (ss != [] ==> u.ackPending)
            && (t.ackPending ==> u.ackPending)
    decreases |ss|
  {
    hide Inv, Apply, Owns, SegmentInput, Wf, Wrap;
    if ss == [] {
      WrapSame(t.rcvNxt);
    } else {
      var s, rest := ss[0], ss[1..];
      var u := SegmentInput(t, s, now);
      PayloadSplit(ss);
      Taken(t, src, s, 0, now, link, k);
      OneTaken(t, src, s, now);
      forall r | r in rest ensures Owns(u, src, r) {
        OwnsSame(t, u, src, r);
      }
      AllTaken(u, src, rest, now, link, k);
      TupleTrans(t, u, DeliverAll(u, src, rest, now, link, k));
      WrapAdd(t.rcvNxt + |s.data|, |Calls.Payload(rest)|);
    }
  }

  lemma PayloadSplit(ss: seq<Segment>)
    requires ss != []
    ensures Calls.Payload(ss) == ss[0].data + Calls.Payload(ss[1..])
  {
  }

  lemma OwnsSame(t: Sock, u: Sock, src: Addr, s: Segment)
    requires Owns(t, src, s) && SameTuple(t, u) && Live(u)
    ensures Owns(u, src, s)
  {
  }

  lemma OneTaken(t: Sock, src: Addr, s: Segment, now: U16)
    requires Inv(t) && Receiving(t) && s.fl == FL_DATA && s.seqno == t.rcvNxt && s.data != [] && |s.data| <= RcvFree(t)
    ensures var u := SegmentInput(t, s, now);
            && Inv(u) && Receiving(u) && SameTuple(t, u) && u.got == t.got + s.data && u.ackPending
            && u.rcvNxt == Wrap(t.rcvNxt + |s.data|) && RcvFree(u) == RcvFree(t) - |s.data|
  {
    hide Inv, SegmentInput, Wrap, FinAckedBy;
    SegmentInputInv(t, s, now);
    SegmentTuple(t, s, now);
    InOrderTaken(t, s, now);
    assert s.data[..|s.data|] == s.data;
  }

  lemma MinLimit(t: Sock)
    ensures t.peerMss == 0 ==> Min(t.sndWnd, t.cwnd) == 0
  {
  }

  /** What a poll with queued data and nothing in flight sends over a link that takes everything. */
  lemma FlightSent(t: Sock, now: U16, link: Link, k: nat)
    requires Inv(t) && Marked(t) && (t.state == Established || t.state == CloseWait) && Up(link)
    requires t.sndLen > 0 && t.inflight == 0 && t.sndWnd > 0 && t.peerMss > 0
    ensures var r, n := PollOne(t, now, link, k), Min(t.sndLen, Min(t.sndWnd, t.cwnd));
            && n > 0 && Consecutive(t.sndNxt, r.sent) && Calls.Payload(r.sent) == SendQueue(t)[..n] && r.sent != []
            && r.t.inflight == n && r.t.sndLen == t.sndLen && r.t.acc == t.acc && Inv(r.t) && r.t.state == t.state
            && r.t.cwnd == t.cwnd && r.t.peerMss == t.peerMss && r.t.sndUna == t.sndUna && !r.t.finSent
            && r.t.sndNxt == Wrap(t.sndNxt + n)
  {
    hide Inv, SendLoop, Retransmit, SendFin, SendAck, PollTimeWait, PollHandshake, TimerExpired, TxDue, Wrap, Consecutive;
    var limit := Min(t.sndWnd, t.cwnd);
    Sending(t);
    MinLimit(t);
    PollOneInv(t, now, link, k);
    BurstConsecutive(t, limit, now, link, k);
    Calls.SendLoopFills(t, limit, now, link, k);
    Calls.SendLoopInOrder(t, limit, now, link, k);
    SendLoopFirst(t, limit, now, link, k);
    LoopKeeps(t, limit, now, link, k);
    TxKeeps(SendLoop(t, limit, now, link, k).t);
    Sending(PollOne(t, now, link, k).t);
    WrapAdd(t.iss + 1 + Retired(t), limit);
    Advanced(t, PollOne(t, now, link, k).t);
  }

  lemma Advanced(t: Sock, u: Sock)
    requires t.sndNxt == Wrap(t.iss + 1 + Retired(t) + t.inflight) && t.inflight == 0
    requires u.sndNxt == Wrap(u.iss + 1 + Retired(u) + u.inflight) && u.iss == t.iss && u.acc == t.acc && u.sndLen == t.sndLen
    ensures u.sndNxt == Wrap(t.sndNxt + u.inflight)
  {
    WrapAdd(t.iss + 1 + Retired(t), u.inflight);
    hide Wrap;
  }

  lemma {:induction false} LoopKeeps(t: Sock, limit: U16, now: U16, link: Link, k: nat)
    requires t.peerMss == 0 ==> limit == 0
    ensures var u := SendLoop(t, limit, now, link, k).t;
            && u.cwnd == t.cwnd && u.peerMss == t.peerMss && u.sndUna == t.sndUna && u.finSent == t.finSent
            && u.state == t.state && u.acc == t.acc && u.sndLen == t.sndLen && u.iss == t.iss
    decreases t.sndLen - t.inflight
  {
    hide AfterNew, NextSize, Wf, SegmentOf, AfterEmit;
    AfterEmitFrame(t, FL_DATA, link(k));
    if MayBurst(t, limit) && link(k) == Ok {
      NewKeeps(AfterEmit(t, FL_DATA, Ok), NextSize(t, limit), now);
      LoopKeeps(AfterNew(AfterEmit(t, FL_DATA, Ok), NextSize(t, limit), now), limit, now, link, k + 1);
    }
  }

  lemma NewKeeps(t: Sock, n: nat, now: U16)
    requires t.inflight + n <= t.sndLen
    ensures var u := AfterNew(t, n, now);
            && u.cwnd == t.cwnd && u.peerMss == t.peerMss && u.sndUna == t.sndUna && u.finSent == t.finSent
            && u.state == t.state && u.acc == t.acc && u.sndLen == t.sndLen && u.iss == t.iss
            && u.inflight == t.inflight + n
  {
    hide Wrap;
  }

  lemma TxKeeps(t: Sock)
    ensures forall b :: var u := TxDue(t, b);
              && u.cwnd == t.cwnd && u.peerMss == t.peerMss && u.sndUna == t.sndUna && u.finSent == t.finSent
              && u.state == t.state && u.acc == t.acc && u.sndLen == t.sndLen && u.iss == t.iss && u.inflight == t.inflight
  {
  }

  /** An acknowledgement of everything in flight, from wherever in the stream it comes. */
  lemma AllAcked(t: Sock, s: Segment, now: U16)
    requires Inv(t) && (t.state == Established || t.state == CloseWait) && t.inflight > 0
    requires s.fl.ack && !s.fl.rst && s.ackno == t.sndNxt
    ensures var u := SegmentInput(t, s, now);
            && u.inflight == 0 && u.sndLen == t.sndLen - t.inflight && u.sndUna == u.sndNxt && u.acc == t.acc
            && u.cwnd == Min(t.cwnd + t.peerMss, CWND_MAX * t.peerMss) && u.retries == 0
  {
    hide Inv, SegmentInput, AckNew, Acked, Wrap;
    Sending(t);
    AckWindow(t, s.ackno);
    AckSpan(t);
    AckDistance(t, s.ackno);
    AckTaken(t, s, now);
    SegmentKept(t, s, now);
    KeptAcc(t, SegmentInput(t, s, now));
    RetiresAll(t, s.ackno);
  }

  lemma KeptAcc(t: Sock, u: Sock)
    requires Kept(t, u)
    ensures u.acc == t.acc
  {
  }

  lemma RetiresAll(t: Sock, ack: U32)
    requires Inv(t) && Synced(t) && !t.finSent && ack == t.sndNxt && AckNew(t, ack)
    ensures Acked(t, ack) == t.inflight
  {
    hide Inv, AckNew, Acked, Wrap;
    AckDistance(t, ack);
    AckSpan(t);
    WrapDiff(t.sndUna, Acked(t, ack));
    WrapSelf(t.sndUna);
  }

  lemma WrapSelf(x: U32)
    ensures Wrap(x) == x
  {
  }

  /** A flight and its acknowledgement: over a link that takes everything a poll with nothing in flight sends
      the front of the queue, as much as both windows allow; a peer in step with room for it puts exactly
      these bytes behind what it has received; and if its own poll then is not stuck, the first segment
      of that poll retires all of them at the sender and opens its congestion window by one segment. */
  lemma RoundTrip(a: Sock, ipA: Addr, b: Sock, ipB: Addr, now: U16, later: U16, link: Link, k: nat)
    requires Inv(a) && Marked(a) && (a.state == Established || a.state == CloseWait) && Up(link)
    requires a.sndLen > 0 && a.inflight == 0 && a.sndWnd > 0 && a.peerMss > 0
    requires Inv(b) && Receiving(b) && b.rcvNxt == a.sndNxt && Mirrored(a, ipA, b, ipB)
    requires Min(a.sndLen, Min(a.sndWnd, a.cwnd)) <= RcvFree(b)
    ensures var n := Min(a.sndLen, Min(a.sndWnd, a.cwnd));
            var r := PollOne(a, now, link, k);
            var u := DeliverAll(b, ipA, r.sent, now, link, k);
            && n > 0 && u.got == b.got + SendQueue(a)[..n]
            && (!Runs.Stuck(u, later) ==>
                  var v := PollOne(u, later, link, k);
                  && v.sent != []
                  && var w := Apply(r.t, EArrive(ipB, v.sent[0], 0, later), link, k).t;
                     && w.inflight == 0 && w.sndLen == a.sndLen - n && w.acc == a.acc && w.sndUna == w.sndNxt
                     && w.cwnd == Min(a.cwnd + a.peerMss, CWND_MAX * a.peerMss))
  {
    hide Inv, Apply, PollOne, SegmentInput, Owns, DeliverAll, Consecutive, Runs.Stuck, Mirrored, Wrap;
    var n := Min(a.sndLen, Min(a.sndWnd, a.cwnd));
    var r := PollOne(a, now, link, k);
    FlightSent(a, now, link, k);
    PollSameTuple(a, now, link, k);
    PollApplied(a, now, link, k);
    MirrorSame(a, r.t, ipA, b, ipB);
    SentIsOwned(a, ipA, b, ipB, EPoll(now), link, k);
    AllTaken(b, ipA, r.sent, now, link, k);
    var u := DeliverAll(b, ipA, r.sent, now, link, k);
    if !Runs.Stuck(u, later) {
      MirrorOther(r.t, ipA, b, u, ipB);
      Answered(r.t, ipA, u, ipB, later, link, k);
    }
  }

  /** The way back: what the peer's poll sends first retires everything in flight. */
  lemma Answered(a: Sock, ipA: Addr, b: Sock, ipB: Addr, now: U16, link: Link, k: nat)
    requires Inv(a) && (a.state == Established || a.state == CloseWait) && a.inflight > 0
    requires Inv(b) && Receiving(b) && b.ackPending && b.rcvNxt == a.sndNxt && !Runs.Stuck(b, now)
    requires Mirrored(a, ipA, b, ipB) && Up(link)
    ensures var v := PollOne(b, now, link, k);
            && v.sent != []
            && var w := Apply(a, EArrive(ipB, v.sent[0], 0, now), link, k).t;
               && w.inflight == 0 && w.sndLen == a.sndLen - a.inflight && w.acc == a.acc && w.sndUna == w.sndNxt
               && w.cwnd == Min(a.cwnd + a.peerMss, CWND_MAX * a.peerMss)
  {
    hide Inv, Apply, PollOne, SegmentInput, Owns, Runs.Stuck, Mirrored, Wrap;
    var v := PollOne(b, now, link, k);
    Runs.AckLeaves(b, now, link, k);
    PollSameTuple(b, now, link, k);
    PollApplied(b, now, link, k);
    MirrorBack(a, b, b, v.t, ipA, ipB);
    SentIsOwned(b, ipB, a, ipA, EPoll(now), link, k);
    Taken(a, ipB, v.sent[0], 0, now, link, k);
    AllAcked(a, v.sent[0], now);
  }

  lemma MirrorOther(a: Sock, ipA: Addr, b: Sock, b': Sock, ipB: Addr)
    requires Mirrored(a, ipA, b, ipB) && SameTuple(b, b')
    ensures Mirrored(a, ipA, b', ipB)
  {
  }

  lemma MirrorSame(a: Sock, a': Sock, ipA: Addr, b: Sock, ipB: Addr)
    requires Mirrored(a, ipA, b, ipB) && SameTuple(a, a')
    ensures Mirrored(a', ipA, b, ipB)
  {
  }

  lemma MirrorBack(a: Sock, b: Sock, b': Sock, b'': Sock, ipA: Addr, ipB: Addr)
    requires Mirrored(a, ipA, b, ipB) && (b' == b || SameTuple(b, b')) && SameTuple(b', b'')
    ensures Mirrored(b'', ipB, a, ipA)
  {
  }
}
