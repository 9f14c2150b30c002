/**
  Two endpoints of one connection over a network that may lose, duplicate and reorder
  segments, and that may at any time deliver an RST nobody sent.  The bytes one side has
  received are always a prefix of the bytes the other side has accepted.
*/
module TcpEndToEnd {
  import opened Words
  import opened Tcp
  import opened TcpInvariants
  import opened TcpSegments
  import opened TcpWindow

  // ----- one direction of the connection -----

  /** A SYN or RST is empty; anything else carries the stream `s` has accepted and
      acknowledges no more than `s` has received.  A FIN means the stream is finished. */
  ghost predicate Wire(t: Sock, s: Segment) {
    && (s.fl.syn || s.fl.rst ==> s.data == [] && !s.fl.fin)
    && (!s.fl.syn && !s.fl.rst ==>
          s.fl.ack && (exists off: nat :: Says(t, s, off)) && (exists a: nat :: Acks(t, s, a)))
  }

  predicate Says(t: Sock, s: Segment, off: nat) {
    && s.seqno == Wrap(t.iss + 1 + off)
    && (s.data != [] ==> off + |s.data| <= |t.acc| && s.data == t.acc[off..off + |s.data|])
    && (s.fl.fin ==> s.data == [] && off == |t.acc| && Finished(t))
  }

  /** No byte will ever be accepted again on this connection. */
  predicate Finished(t: Sock) { t.finSent || t.state == Closed }

  predicate FinAcked(t: Sock) { t.finSent && t.sndUna == t.sndNxt }

  /** The receiver has a prefix of what the sender accepted, all of it once it has seen the
      end; and the sender has retired nothing the receiver has not put in its ring. */
  predicate Stream(snd: Sock, rcv: Sock) {
    && rcv.got <= snd.acc
    && (rcv.rcvAbs == 0 ==> rcv.got == [] && !rcv.eof)
    && (rcv.rcvAbs > 0 ==> rcv.rcvAbs == 1 + |rcv.got| + if rcv.eof then 1 else 0)
    && (rcv.eof ==> rcv.got == snd.acc && Finished(snd))
    && (Synced(snd) ==> Retired(snd) <= |rcv.got| && (FinAcked(snd) ==> rcv.eof))
  }

  /** Fewer than 2^31 bytes in one direction. */
  predicate Short(t: Sock) { |t.acc| < 0x8000_0000 }

  /** An old SYN of the peer acknowledges nothing but our own SYN. */
  predicate OldSyn(rcv: Sock, s: Segment) {
    s.fl.syn && s.data == [] && !s.fl.fin && (s.fl.ack ==> s.ackno == Wrap(rcv.iss + 1))
  }

  /** The data of an in-order segment continues the received stream exactly. */
  lemma InOrderContinues(snd: Sock, rcv: Sock, s: Segment, off: nat)
    requires Stream(snd, rcv) && Inv(rcv) && Synced(rcv) && rcv.irs == snd.iss && Short(snd)
    requires s.seqno == rcv.rcvNxt && Says(snd, s, off)
    ensures s.data != [] && !rcv.eof ==> off == |rcv.got|
    ensures s.fl.fin ==> !rcv.eof && rcv.got == snd.acc
  {
    assert rcv.rcvNxt == Wrap(rcv.irs + rcv.rcvAbs);
    if s.data != [] || s.fl.fin {
      WrapInjective(snd.iss, 1 + off, rcv.rcvAbs);
    }
  }

  lemma PutStream(snd: Sock, rcv: Sock, data: seq<Byte>)
    requires Stream(snd, rcv) && rcv.rcvCount + |data| <= RCVBUF
    requires rcv.got + data <= snd.acc && !rcv.eof && rcv.rcvAbs > 0
    ensures Stream(snd, PutData(rcv, data))
  {
    hide Wrap, Synced, FinAcked;
  }

  lemma AckOnlyStream(snd: Sock, rcv: Sock)
    requires Stream(snd, rcv) && rcv.rcvCount <= RCVBUF
    ensures Stream(snd, PutData(rcv, []))
  {
    hide Wrap, Synced, FinAcked;
  }

  lemma FinStream(snd: Sock, rcv: Sock)
    requires Stream(snd, rcv) && rcv.rcvAbs > 0 && !rcv.eof && rcv.got == snd.acc && Finished(snd)
    ensures Stream(snd, TakeFin(rcv))
  {
    hide Wrap, Synced, FinAcked;
  }

  lemma TakeDataStream(snd: Sock, rcv: Sock, s: Segment, off: nat)
    requires Stream(snd, rcv) && Inv(rcv) && Synced(rcv) && rcv.irs == snd.iss && Short(snd)
    requires s.seqno == rcv.rcvNxt && Says(snd, s, off)
    ensures Stream(snd, TakeData(rcv, s.data))
  {
    InOrderContinues(snd, rcv, s, off);
    var n := Takes(rcv, |s.data|);
    if s.data != [] {
      if Receiving(rcv) {
        assert !rcv.eof && rcv.rcvAbs > 0;
        assert rcv.got + s.data[..n] == snd.acc[..off + n];
        hide Inv, Stream, PutData, Takes, Says;
        PutStream(snd, rcv, s.data[..n]);
      } else {
        assert s.data[..n] == [];
        AckOnlyStream(snd, rcv);
      }
    }
  }

  /** Taking data and a FIN from a genuine in-order segment keeps the prefix. */
  lemma TakeStream(snd: Sock, rcv: Sock, s: Segment, off: nat)
    requires Stream(snd, rcv) && Inv(rcv) && Synced(rcv) && rcv.irs == snd.iss && Short(snd)
    requires s.seqno == rcv.rcvNxt && Says(snd, s, off)
    ensures var t2 := TakeData(rcv, s.data);
            Stream(snd, if FinReached(rcv, s) then TakeFin(t2) else t2)
  {
    InOrderContinues(snd, rcv, s, off);
    TakeDataStream(snd, rcv, s, off);
    if s.fl.fin {
      assert rcv.rcvAbs > 0 && TakeData(rcv, s.data) == rcv;
      hide Inv, Stream, TakeFin, TakeData;
      FinStream(snd, rcv);
    }
  }

  /** `u` has received exactly what `t` has. */
  predicate SameReceived(t: Sock, u: Sock) { u.got == t.got && u.rcvAbs == t.rcvAbs && u.eof == t.eof }

  lemma ReceiverFrame(snd: Sock, t: Sock, u: Sock)
    requires Stream(snd, t) && SameReceived(t, u)
    ensures Stream(snd, u)
  {
    hide Synced, FinAcked, Finished;
  }

  /** `u` has accepted and had acknowledged exactly what `t` has. */
  predicate SameSent(t: Sock, u: Sock) {
    && u.acc == t.acc && u.sndLen == t.sndLen && u.finSent == t.finSent && u.sndUna == t.sndUna
    && u.sndNxt == t.sndNxt && (Synced(u) ==> Synced(t)) && (Finished(t) ==> Finished(u))
  }

  lemma SenderFrame(t: Sock, u: Sock, rcv: Sock)
    requires Stream(t, rcv) && SameSent(t, u)
    ensures Stream(u, rcv)
  {
  }

  /** An acknowledgement of `a` sequence numbers, all of which the receiver has. */
  predicate Earned(rcv: Sock, a: nat) { 1 <= a <= 1 + |rcv.got| + if rcv.eof then 1 else 0 }

  /** Retiring what a genuine acknowledgement covers: every retired byte is in the peer's ring or beyond. */
  lemma RetireEarned(snd: Sock, rcv: Sock, ack: U32, a: nat)
    requires Stream(snd, rcv) && Inv(snd) && Synced(snd) && Short(snd) && AckNew(snd, ack)
    requires ack == Wrap(snd.iss + a) && Earned(rcv, a)
    ensures !snd.finSent ==> Retired(snd) + Acked(snd, ack) <= |rcv.got|
    ensures snd.finSent ==> Acked(snd, ack) == 0 && ack == snd.sndNxt && rcv.eof
  {
    hide Inv, Stream, AckNew, Wrap, Wf;
    AckDistance(snd, ack);
    Positions(snd);
    StreamBounds(snd, rcv);
    if snd.finSent {
      FinAt(snd);
      WrapInjective(snd.iss, a, |snd.acc| + 2);
    } else {
      var n := Acked(snd, ack);
      UnaAt(snd);
      WrapAdd(snd.iss + 1 + Retired(snd), n);
      WrapInjective(snd.iss, a, 1 + Retired(snd) + n);
    }
  }

  lemma StreamBounds(snd: Sock, rcv: Sock)
    requires Stream(snd, rcv)
    ensures |rcv.got| <= |snd.acc| && (rcv.eof ==> rcv.got == snd.acc)
    ensures snd.inflight <= snd.sndLen <= |snd.acc|
  {
  }

  lemma FinAt(t: Sock)
    requires Inv(t) && Synced(t) && t.finSent
    ensures t.sndNxt == Wrap(t.iss + (|t.acc| + 2))
  {
    hide Wrap;
  }

  lemma UnaAt(t: Sock)
    requires Inv(t) && Synced(t) && !t.finSent
    ensures t.sndUna == Wrap(t.iss + 1 + Retired(t))
  {
    hide Wrap;
  }

  lemma RetireStream(snd: Sock, rcv: Sock, n: nat, ack: U32, now: U16)
    requires Stream(snd, rcv) && Synced(snd) && n <= snd.inflight
    requires Retired(snd) + n <= |rcv.got| && (snd.finSent ==> rcv.eof)
    ensures Stream(Retire(snd, n, ack, now), rcv)
  {
    hide GrownCwnd;
  }

  lemma HandleAckStream(snd: Sock, rcv: Sock, ack: U32, a: nat, now: U16)
    requires Stream(snd, rcv) && Inv(snd) && Synced(snd) && Short(snd)
    requires ack == Wrap(snd.iss + a) && Earned(rcv, a)
    ensures Stream(HandleAck(snd, ack, now), rcv)
  {
    if AckNew(snd, ack) {
      RetireEarned(snd, rcv, ack, a);
      FinQueue(snd);
      assert snd.finSent ==> Retired(snd) + Acked(snd, ack) <= |rcv.got|;
      hide Inv, Stream, AckNew, Acked, Retire;
      RetireStream(snd, rcv, Acked(snd, ack), ack, now);
    }
  }

  lemma FinQueue(t: Sock)
    requires Inv(t) && Synced(t)
    ensures t.finSent ==> t.sndLen == 0
  {
  }

  // ----- a segment arrives at a synchronized endpoint -----

  /** What an endpoint may receive from its peer: an old SYN of this connection attempt, or,
      once both agree on both initial sequence numbers, a segment of the peer's stream. */
  ghost predicate FromPeer(me: Sock, peer: Sock, s: Segment) {
    && !s.fl.rst
    && (OldSyn(me, s) || (!s.fl.syn && Wire(peer, s) && me.irs == peer.iss && peer.irs == me.iss))
  }

  predicate Streams(me: Sock, peer: Sock) { Stream(me, peer) && Stream(peer, me) }

  lemma EarnedAck(me: Sock, peer: Sock, s: Segment) returns (a: nat)
    requires FromPeer(me, peer, s) && s.fl.ack && Stream(me, peer)
    ensures s.ackno == Wrap(me.iss + a) && Earned(peer, a)
  {
    if OldSyn(me, s) {
      a := 1;
    } else {
      a :| Acks(peer, s, a);
    }
  }

  lemma HandleAckStreams(me: Sock, peer: Sock, s: Segment, now: U16)
    requires FromPeer(me, peer, s) && s.fl.ack && Streams(me, peer) && Inv(me) && Synced(me) && Short(me)
    ensures Streams(HandleAck(me, s.ackno, now), peer)
  {
    var a := EarnedAck(me, peer, s);
    HandleAckStream(me, peer, s.ackno, a, now);
    HandleAckFrame(me, s.ackno, now);
    hide HandleAck, Stream, Inv;
    ReceiverFrame(peer, me, HandleAck(me, s.ackno, now));
  }

  lemma MarkStreams(me: Sock, u: Sock, peer: Sock)
    requires Streams(me, peer) && SameSent(me, u) && SameReceived(me, u)
    ensures Streams(u, peer)
  {
    hide Stream, SameSent, SameReceived;
    SenderFrame(me, u, peer);
    ReceiverFrame(peer, me, u);
  }

  lemma OldSynTakes(me: Sock, s: Segment)
    requires OldSyn(me, s)
    ensures TakeData(me, s.data) == me && !FinReached(me, s)
  {
  }

  lemma TakeStreams(me: Sock, peer: Sock, s: Segment)
    requires FromPeer(me, peer, s) && Streams(me, peer) && Inv(me) && Synced(me) && Short(peer)
    requires s.seqno == me.rcvNxt
    ensures var t2 := TakeData(me, s.data);
            Streams(if FinReached(me, s) then TakeFin(t2) else t2, peer)
  {
    var t2 := TakeData(me, s.data);
    if OldSyn(me, s) {
      OldSynTakes(me, s);
      hide *;
    } else {
      var off: nat :| Says(peer, s, off);
      TakeStream(peer, me, s, off);
      TakeDataSends(me, s.data);
      TakeFinSends(t2);
      hide Stream, TakeData, TakeFin, FinReached, Inv, SameSent, Wire;
      SenderFrame(me, t2, peer);
      SenderFrame(t2, TakeFin(t2), peer);
    }
  }

  lemma TakeDataSends(t: Sock, data: seq<Byte>)
    ensures SameSent(t, TakeData(t, data))
  {
    hide PutData, SameSent;
    PutDataSends(t, data[..Takes(t, |data|)]);
    Unsent(t);
  }

  lemma PutDataSends(t: Sock, data: seq<Byte>)
    requires t.rcvCount + |data| <= RCVBUF
    ensures SameSent(t, PutData(t, data))
  {
    hide Wrap;
  }

  lemma Unsent(t: Sock)
    ensures SameSent(t, t)
  {
  }

  lemma TakeFinSends(t: Sock)
    ensures SameSent(t, TakeFin(t))
  {
  }

  lemma OurFinAckedStreams(me: Sock, peer: Sock)
    requires Streams(me, peer)
    ensures Streams(OurFinAcked(me), peer)
  {
    MarkStreams(me, OurFinAcked(me), peer);
  }

  lemma InOrderStreams(me: Sock, peer: Sock, s: Segment, now: U16)
    requires FromPeer(me, peer, s) && s.fl.ack && Streams(me, peer) && Inv(me) && Synced(me)
    requires Short(me) && Short(peer) && s.seqno == me.rcvNxt
    ensures Streams(InOrder(me, s, now), peer)
  {
    var t0 := HandleAck(me, s.ackno, now);
    var t1 := WithWindow(t0, s.wnd);
    HandleAckInv(me, s.ackno, now);
    HandleAckStreams(me, peer, s, now);
    HandleAckFrame(me, s.ackno, now);
    MarksInv(t0, t1);
    MarkStreams(t0, t1, peer);
    assert FromPeer(t1, peer, s) && t1.rcvNxt == me.rcvNxt && Synced(t1);
    var t2 := TakeData(t1, s.data);
    var t3 := if FinReached(t1, s) then TakeFin(t2) else t2;
    hide Inv, Streams, HandleAck, WithWindow, TakeData, TakeFin, OurFinAcked, FinReached, FromPeer;
    TakeStreams(t1, peer, s);
    OurFinAckedStreams(t3, peer);
  }

  lemma SyncedStreams(me: Sock, peer: Sock, s: Segment, now: U16)
    requires FromPeer(me, peer, s) && Streams(me, peer) && Inv(me) && Synced(me)
    requires Short(me) && Short(peer)
    ensures Streams(SyncedInput(me, s, now), peer)
  {
    if s.fl.ack {
      if s.seqno == me.rcvNxt {
        InOrderStreams(me, peer, s, now);
      } else {
        WantAckInv(me);
        MarkStreams(me, WantAck(me), peer);
        assert FromPeer(WantAck(me), peer, s);
        hide Inv, Streams, HandleAck, WantAck, FromPeer;
        HandleAckStreams(me, peer, s, now);
        HandleAckStreams(WantAck(me), peer, s, now);
      }
    }
  }
}
