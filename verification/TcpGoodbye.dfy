/**
  The orderly end of a connection: four segments from two closes to CLOSED on one side and TIME_WAIT on
  the other.
*/
module TcpGoodbye {
  import opened Words
  import opened Common
  import opened Tcp
  import opened TcpInvariants
  import opened TcpSegments
  import opened TcpWindow
  import opened TcpDispatch
  import opened TcpClosing
  import opened TcpDelivery
  import opened TcpProgress
  import opened TcpTransfer
  import Wait = TcpTimeWait

  /** Past the handshake, everything accepted sent and acknowledged, no acknowledgement owed. */
  predicate Idle(t: Sock) {
    Inv(t) && Synced(t) && t.state != TimeWait && t.sndLen == 0 && !t.ackPending && t.sndUna == t.sndNxt
  }

  /** The segment is empty, stands where the peer is and acknowledges `ack`. */
  predicate Bare(s: Segment, fl: Flags, q: U32, ack: U32) {
    s.fl == fl && s.seqno == q && s.ackno == ack && s.data == []
  }

  /** Where a socket stands in both directions. */
  predicate SamePlace(t: Sock, u: Sock) {
    && u.rcvNxt == t.rcvNxt && u.sndUna == t.sndUna && u.sndLen == t.sndLen && u.eof == t.eof && u.acc == t.acc
    && SameTuple(t, u)
  }

  lemma PollPlace(t: Sock, u: Sock)
    requires PollOnly(t, u)
    ensures SamePlace(t, u)
  {
  }

  lemma ClosePlace(t: Sock)
    ensures SamePlace(t, CloseDown(t))
  {
    hide QueueFin, ToClosed, SamePlace;
    FinPlace(t);
    ClosedPlace(t);
  }

  lemma FinPlace(t: Sock)
    ensures SamePlace(t, QueueFin(t))
  {
  }

  lemma ClosedPlace(t: Sock)
    ensures SamePlace(t, ToClosed(t)) && SamePlace(t, t)
  {
  }

  /** The FIN of an idle socket that is closed. */
  lemma SendsFin(t: Sock, now: U16, link: Link, k: nat)
    requires Idle(t) && (t.state == Established || t.state == CloseWait) && link(k) == Ok
    ensures var r := PollOne(CloseDown(t), now, link, k);
            && |r.sent| == 1 && Bare(r.sent[0], FL_FIN_ACK, t.sndNxt, t.rcvNxt) && SamePlace(t, r.t) && Inv(r.t)
            && r.t.state == (if t.state == CloseWait then LastAck else FinWait1) && r.t.finSent && !r.t.ackPending
            && r.t.sndNxt == Wrap(t.sndNxt + 1)
    ensures CloseDown(t).state == t.state && Inv(CloseDown(t)) && SameTuple(t, CloseDown(t))
  {
    hide Inv, CloseDown, PollOne, Genuine, Wrap;
    var u := CloseDown(t);
    CloseDownInv(t);
    ClosingFields(t);
    ClosePlace(t);
    CloseSendsFin(t, now, link, k);
    FinStates(t);
    Sending(t);
    var r := PollOne(u, now, link, k);
    PollOneInv(u, now, link, k);
    PollOneGenuine(u, now, link, k);
    HandshakeEof(u);
    PollOnePolls(u, now, link, k);
    PollPlace(u, r.t);
    AcksPosition(r.t, r.sent[0]);
    Positions(r.t);
    NextAfterFin(t, r.t);
  }

  lemma NextAfterFin(t: Sock, u: Sock)
    requires t.sndNxt == Wrap(t.iss + 1 + |t.acc|) && u.acc == t.acc && u.sndLen == 0 && u.inflight == 0 && u.finSent
    requires u.iss == t.iss && u.sndNxt == Wrap(u.iss + 1 + (Retired(u) + u.inflight + FinLen(u)))
    ensures u.sndNxt == Wrap(t.sndNxt + 1)
  {
    WrapAdd(t.iss + 1 + |t.acc|, 1);
    hide Wrap;
  }

  /** A FIN that acknowledges nothing new is taken. */
  lemma TakesFin(t: Sock, s: Segment, now: U16)
    requires Inv(t) && Synced(t) && Bare(s, FL_FIN_ACK, t.rcvNxt, t.sndUna)
    ensures var u := SegmentInput(t, s, now);
            && Inv(u) && SameTuple(t, u) && u.rcvNxt == Wrap(t.rcvNxt + 1) && u.eof && u.ackPending
            && u.state == NextState(t.state, true, t.finSent && t.sndUna == t.sndNxt)
            && u.sndUna == t.sndUna && u.sndNxt == t.sndNxt && u.sndLen == t.sndLen && u.inflight == t.inflight
            && u.finSent == t.finSent
  {
    hide Inv, SegmentInput, AckNew, Wrap, NextState;
    SegmentInputInv(t, s, now);
    SegmentTuple(t, s, now);
    NotNew(t, s);
    InOrderTaken(t, s, now);
    AckTaken(t, s, now);
    PlusNone(t.rcvNxt);
  }

  lemma PlusNone(x: U32)
    ensures Wrap(x + 0 + 1) == Wrap(x + 1) && Wrap(x + 0) == x
  {
  }

  /** The acknowledgement of our FIN, which is outstanding, is taken. */
  lemma TakesFinAck(t: Sock, s: Segment, now: U16)
    requires Inv(t) && Synced(t) && t.finSent && t.sndUna != t.sndNxt && Bare(s, FL_ACK, t.rcvNxt, t.sndNxt)
    ensures var u := SegmentInput(t, s, now);
            && Inv(u) && SameTuple(t, u) && u.rcvNxt == t.rcvNxt && u.eof == t.eof && u.ackPending == t.ackPending
            && u.state == NextState(t.state, false, true) && u.sndUna == u.sndNxt == t.sndNxt
            && u.sndLen == t.sndLen && u.finSent
  {
    hide Inv, SegmentInput, AckNew, Wrap, NextState, Acked;
    SegmentInputInv(t, s, now);
    SegmentTuple(t, s, now);
    AckWindow(t, s.ackno);
    AckSpan(t);
    AckDistance(t, s.ackno);
    InOrderTaken(t, s, now);
    AckTaken(t, s, now);
    PlusNone(t.rcvNxt);
  }

  /** A socket that owes an acknowledgement and has nothing else to send sends it bare. */
  lemma SendsAck(t: Sock, now: U16, link: Link, k: nat)
    requires Inv(t) && t.state == CloseWait && t.sndLen == 0 && t.inflight == 0 && t.ackPending
    requires !t.finSent && !t.finQueued && link(k) == Ok
    ensures var r := PollOne(t, now, link, k);
            && |r.sent| == 1 && Bare(r.sent[0], FL_ACK, t.sndNxt, t.rcvNxt) && SamePlace(t, r.t) && Inv(r.t)
            && r.t.state == t.state && !r.t.ackPending && r.t.sndNxt == t.sndNxt
  {
    hide Inv, AfterEmit, AckDone, Retransmit, SendQueued, SendFin, SamePlace;
    PollOneInv(t, now, link, k);
    HandshakeEof(t);
    PollOnePolls(t, now, link, k);
    PollPlace(t, PollOne(t, now, link, k).t);
    AfterEmitFrame(t, FL_ACK, Ok);
    DoneFields(AfterEmit(t, FL_ACK, Ok));
  }

  /** The last acknowledgement of TIME_WAIT. */
  lemma SendsLastAck(t: Sock, now: U16, link: Link, k: nat)
    requires Inv(t) && t.state == TimeWait && t.ackPending && link(k) == Ok
    ensures var r := PollOne(t, now, link, k);
            && |r.sent| == 1 && Bare(r.sent[0], FL_ACK, t.sndNxt, t.rcvNxt) && r.t.state == TimeWait && !r.t.ackPending
            && SameTuple(t, r.t)
  {
    Wait.LastAckBegins(t, now, link, k);
    Wait.PollPeer(t, now, link, k);
    LastAckIs(t, now, link, k);
    hide PollOne, Inv;
  }

  lemma LastAckIs(t: Sock, now: U16, link: Link, k: nat)
    requires t.state == TimeWait && t.ackPending && link(k) == Ok
    ensures var r := PollOne(t, now, link, k); |r.sent| == 1 && Bare(r.sent[0], FL_ACK, t.sndNxt, t.rcvNxt)
  {
    hide AfterEmit, AckDone, WaitFrom, PollHandshake, PollSynced, ToClosed;
    DoneFields(t);
  }

  /** Two idle ends of one connection, in step. */
  predicate InStep(a: Sock, ipA: Addr, b: Sock, ipB: Addr) {
    Idle(a) && Idle(b) && Mirrored(a, ipA, b, ipB) && a.rcvNxt == b.sndNxt && b.rcvNxt == a.sndNxt
  }

  /** The side that closes first, up to FIN_WAIT_2, and the other one, up to CLOSE_WAIT. */
  lemma FirstClose(a: Sock, ipA: Addr, b: Sock, ipB: Addr, now: U16, link: Link, k: nat)
    requires InStep(a, ipA, b, ipB) && a.state == Established && b.state == Established && !b.finQueued && Up(link)
    ensures var a1 := PollOne(CloseDown(a), now, link, k);
            && |a1.sent| == 1
            && var b1 := Apply(b, EArrive(ipA, a1.sent[0], 0, now), link, k).t;
               var b2 := PollOne(b1, now, link, k);
               && |b2.sent| == 1
               && var a2 := Apply(a1.t, EArrive(ipB, b2.sent[0], 0, now), link, k).t;
                  && a2.state == FinWait2 && a2.finSent && b2.t.state == CloseWait && b2.t.eof
                  && InStep(a2, ipA, b2.t, ipB)
  {
    hide Inv, Apply, CloseDown, PollOne, SegmentInput, Owns, Wrap;
    SendsFin(a, now, link, k);
    PollApplied(CloseDown(a), now, link, k);
    var a1 := PollOne(CloseDown(a), now, link, k);
    SentIsOwned(CloseDown(a), ipA, b, ipB, EPoll(now), link, k);
    Taken(b, ipA, a1.sent[0], 0, now, link, k);
    TakesFin(b, a1.sent[0], now);
    var b1 := SegmentInput(b, a1.sent[0], now);
    Open(b);
    AckSpan(b);
    StillUnqueued(b, a1.sent[0], now);
    SendsAck(b1, now, link, k);
    PollApplied(b1, now, link, k);
    var b2 := PollOne(b1, now, link, k);
    SentIsOwned(b1, ipB, a1.t, ipA, EPoll(now), link, k);
    Taken(a1.t, ipB, b2.sent[0], 0, now, link, k);
    Ahead(a.sndNxt);
    TakesFinAck(a1.t, b2.sent[0], now);
  }

  lemma Open(t: Sock)
    requires Inv(t) && (t.state == Established || t.state == CloseWait)
    ensures !t.finSent
  {
    hide Wrap;
  }

  lemma Ahead(x: U32)
    ensures Wrap(x + 1) != x
  {
  }

  lemma StillUnqueued(t: Sock, s: Segment, now: U16)
    requires Inv(t) && Live(t)
    ensures SegmentInput(t, s, now).finQueued == t.finQueued
  {
    SegmentKept(t, s, now);
    hide SegmentInput, Inv;
  }

  /** The other side's close: LAST_ACK and CLOSED there, TIME_WAIT here. */
  lemma SecondClose(a: Sock, ipA: Addr, b: Sock, ipB: Addr, now: U16, link: Link, k: nat)
    requires InStep(a, ipA, b, ipB) && a.state == FinWait2 && a.finSent && b.state == CloseWait && Up(link)
    ensures var b1 := PollOne(CloseDown(b), now, link, k);
            && |b1.sent| == 1
            && var a1 := Apply(a, EArrive(ipB, b1.sent[0], 0, now), link, k).t;
               var a2 := PollOne(a1, now, link, k);
               && |a2.sent| == 1 && a2.t.state == TimeWait && a2.t.eof
               && Apply(b1.t, EArrive(ipA, a2.sent[0], 0, now), link, k).t.state == Closed
  {
    hide Inv, Apply, CloseDown, PollOne, SegmentInput, Owns, Wrap;
    SendsFin(b, now, link, k);
    PollApplied(CloseDown(b), now, link, k);
    var b1 := PollOne(CloseDown(b), now, link, k);
    MirrorBack(a, b, b, b1.t, ipA, ipB);
    SentIsOwned(CloseDown(b), ipB, a, ipA, EPoll(now), link, k);
    Taken(a, ipB, b1.sent[0], 0, now, link, k);
    TakesFin(a, b1.sent[0], now);
    var a1 := SegmentInput(a, b1.sent[0], now);
    SendsLastAck(a1, now, link, k);
    PollApplied(a1, now, link, k);
    var a2 := PollOne(a1, now, link, k);
    LastEof(a1, now, link, k);
    SentIsOwned(a1, ipA, b1.t, ipB, EPoll(now), link, k);
    Taken(b1.t, ipA, a2.sent[0], 0, now, link, k);
    Ahead(b.sndNxt);
    TakesFinAck(b1.t, a2.sent[0], now);
  }

  lemma LastEof(t: Sock, now: U16, link: Link, k: nat)
    requires Inv(t) && t.state == TimeWait
    ensures PollOne(t, now, link, k).t.eof == t.eof
  {
    PollOnePolls(t, now, link, k);
    hide PollOne, Inv;
  }

  /** Four segments end a connection: from two idle ends in step, whoever closes first, the FIN of the first
      poll, its acknowledgement, the other side's FIN after its own close and the last acknowledgement lead
      over a link that takes everything to TIME_WAIT on the side that closed first and CLOSED on the other,
      each having flagged the end of the other's stream. */
  lemma OrderlyClose(a: Sock, ipA: Addr, b: Sock, ipB: Addr, now: U16, later: U16, link: Link, k: nat)
    requires InStep(a, ipA, b, ipB) && a.state == Established && b.state == Established && !b.finQueued && Up(link)
    ensures var a1 := PollOne(CloseDown(a), now, link, k);
            && |a1.sent| == 1
            && var b2 := PollOne(Apply(b, EArrive(ipA, a1.sent[0], 0, now), link, k).t, now, link, k);
               && |b2.sent| == 1 && b2.t.state == CloseWait && b2.t.eof
               && var a2 := Apply(a1.t, EArrive(ipB, b2.sent[0], 0, now), link, k).t;
                  var b3 := PollOne(CloseDown(b2.t), later, link, k);
                  && a2.state == FinWait2 && |b3.sent| == 1
                  && var a4 := PollOne(Apply(a2, EArrive(ipB, b3.sent[0], 0, later), link, k).t, later, link, k);
                     && |a4.sent| == 1 && a4.t.state == TimeWait && a4.t.eof
                     && Apply(b3.t, EArrive(ipA, a4.sent[0], 0, later), link, k).t.state == Closed
  {
    hide Apply, CloseDown, PollOne, InStep;
    FirstClose(a, ipA, b, ipB, now, link, k);
    var a1 := PollOne(CloseDown(a), now, link, k);
    var b2 := PollOne(Apply(b, EArrive(ipA, a1.sent[0], 0, now), link, k).t, now, link, k);
    SecondClose(Apply(a1.t, EArrive(ipB, b2.sent[0], 0, now), link, k).t, ipA, b2.t, ipB, later, link, k);
  }
}
