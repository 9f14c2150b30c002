/**
  What single calls, segments and polls achieve, as the application or the peer would put it.
*/
module TcpCalls {
  import opened Words
  import opened Tcp
  import opened TcpInvariants
  import opened TcpSegments
  import opened TcpWindow

  // ----- the application -----

  /** mn_tcp_send takes the front of what it is offered, and stops short only when the ring is full, in exactly
      the states in which our side of the connection is open: ESTABLISHED and CLOSE_WAIT, until mn_tcp_close. */
  lemma SendTakesAllThatFits(t: Sock, data: seq<Byte>)
    ensures var u, n := SendBytes(t, data), Accepts(t, |data|);
            && u.acc == t.acc + data[..n] && SendQueue(u) == SendQueue(t) + data[..n]
            && (if (t.state == Established || t.state == CloseWait) && !t.finQueued
                then n == |data| || u.sndLen == SNDBUF else u == t)
            && (n > 0 ==> u.txPending)
  {
    if Accepts(t, |data|) == 0 {
      assert data[..0] == [];
    } else {
      assert t.acc + data[..Accepts(t, |data|)] == Enqueue(t, data[..Accepts(t, |data|)]).acc;
    }
  }

  /** mn_tcp_recv hands over everything there is room for, oldest first, and loses none of the rest. */
  lemma RecvGivesAllThatFits(t: Sock, cap: nat)
    ensures var u := RecvBytes(t, cap);
            && RecvQueue(t) == Received(t, cap) + RecvQueue(u)
            && |Received(t, cap)| == Min(cap, t.rcvCount)
  {
    hide EdgeMoved, WantAck, Drain;
    var n := Min(cap, t.rcvCount);
    DrainQueue(t, n);
    MarkQueue(Drain(t, n));
  }

  lemma DrainQueue(t: Sock, n: nat)
    requires n <= t.rcvCount
    ensures RecvQueue(t) == RecvQueue(t)[..n] + RecvQueue(Drain(t, n))
  {
  }

  lemma MarkQueue(t: Sock)
    ensures RecvQueue(WantAck(t)) == RecvQueue(t)
  {
  }

  // ----- segments -----

  /** An RST resets a synchronized connection exactly if its sequence number lies in the receive
      window; otherwise it changes nothing (section 3.10.7.4 of RFC 9293). */
  lemma RstIffInWindow(t: Sock, s: Segment, now: U16)
    requires Synced(t) && s.fl.rst
    ensures var u := SegmentInput(t, s, now);
            if Wrap(s.seqno - t.rcvNxt) < AdvWindow(t) then u == Reset(t) else u == t
  {
    hide Reset, Wrap, SeqLt, SeqLeq;
    InWindow(s.seqno, t.rcvNxt, AdvWindow(t));
  }

  /** After an in-order segment the sender takes the segment's own right edge for the peer's, exactly
      unless the segment acknowledges less than was acknowledged before: then an old window is
      counted from a newer position. */
  lemma RightEdgeTaken(t: Sock, s: Segment, now: U16)
    requires Inv(t) && Synced(t) && s.fl.ack && !s.fl.rst && s.seqno == t.rcvNxt
    ensures var u := SegmentInput(t, s, now);
            && u.sndWnd == s.wnd
            && (Wrap(u.sndUna + u.sndWnd) == Wrap(s.ackno + s.wnd) <==> AckNew(t, s.ackno) || s.ackno == t.sndUna)
  {
    hide Inv, Wrap, InOrder, AckNew;
    InOrderEdge(t, s, now);
    SameShift(if AckNew(t, s.ackno) then s.ackno else t.sndUna, s.ackno, s.wnd);
  }

  /** Where the sender stands after an in-order segment. */
  lemma InOrderEdge(t: Sock, s: Segment, now: U16)
    ensures var u := InOrder(t, s, now);
            u.sndWnd == s.wnd && u.sndUna == if AckNew(t, s.ackno) then s.ackno else t.sndUna
  {
    hide HandleAck, WithWindow, TakeData, TakeFin, OurFinAcked, AckNew, FinReached;
    var t0 := HandleAck(t, s.ackno, now);
    var t1 := WithWindow(t0, s.wnd);
    var t2 := TakeData(t1, s.data);
    UnaAfter(t, s.ackno, now);
    WindowStage(t0, s.wnd);
    StageWindow(t1, s.data);
    StageWindow(t2, s.data);
    StageWindow(TakeFin(t2), s.data);
  }

  lemma UnaAfter(t: Sock, ack: U32, now: U16)
    ensures HandleAck(t, ack, now).sndUna == if AckNew(t, ack) then ack else t.sndUna
    ensures HandleAck(t, ack, now).sndUna == ack <==> AckNew(t, ack) || ack == t.sndUna
  {
    hide AckNew, GrownCwnd, Acked;
  }

  lemma WindowStage(t: Sock, wnd: U16)
    ensures WithWindow(t, wnd).sndUna == t.sndUna && WithWindow(t, wnd).sndWnd == wnd
  {
  }

  /** Same position and window on the sending side. */
  predicate SameEdge(t: Sock, u: Sock) { u.sndUna == t.sndUna && u.sndWnd == t.sndWnd }

  lemma StageWindow(t: Sock, data: seq<Byte>)
    ensures SameEdge(t, TakeData(t, data)) && SameEdge(t, TakeFin(t)) && SameEdge(t, OurFinAcked(t))
  {
    hide PutData, TakeFin, OurFinAcked;
    PutEdge(t, data[..Takes(t, |data|)]);
    FinEdge(t);
    OurFinEdge(t);
  }

  lemma PutEdge(t: Sock, data: seq<Byte>)
    requires t.rcvCount + |data| <= RCVBUF
    ensures SameEdge(t, PutData(t, data))
  {
    hide Wrap;
  }

  lemma FinEdge(t: Sock)
    ensures SameEdge(t, TakeFin(t))
  {
    hide Wrap;
  }

  lemma OurFinEdge(t: Sock)
    ensures SameEdge(t, OurFinAcked(t))
  {
  }

  lemma SameShift(a: U32, b: U32, n: nat)
    ensures Wrap(a + n) == Wrap(b + n) <==> a == b
  {
    WrapInjectiveShift(a, b, n);
  }

  lemma WrapInjectiveShift(a: U32, b: U32, n: nat)
    ensures Wrap(n + a) == Wrap(n + b) ==> a == b
  {
    if Wrap(n + a) == Wrap(n + b) {
      WrapInjective(n, a, b);
    }
  }

  // ----- the poll -----

  function Max(a: int, b: int): int { if a < b then b else a }

  /** On a link that takes everything the send loop leaves nothing undone: either all queued data is in
      flight, or as much as the limit allows. */
  lemma {:induction false} SendLoopFills(t: Sock, limit: U16, now: U16, link: Link, k: nat)
    requires (t.peerMss == 0 ==> limit == 0) && forall j: nat :: j >= k ==> link(j) == Ok
    ensures SendLoop(t, limit, now, link, k).t.inflight == Max(t.inflight, Min(t.sndLen, limit))
    decreases t.sndLen - t.inflight
  {
    if MayBurst(t, limit) {
      AfterEmitFrame(t, FL_DATA, Ok);
      AfterNewFrame(AfterEmit(t, FL_DATA, Ok), NextSize(t, limit), now);
      hide AfterEmit, AfterNew, NextSize, Wf, SegmentOf;
      SendLoopFills(AfterNew(AfterEmit(t, FL_DATA, Ok), NextSize(t, limit), now), limit, now, link, k + 1);
    }
  }

  /** What the segments of a burst carry. */
  function Payload(sent: seq<Segment>): seq<Byte> {
    if sent == [] then [] else sent[0].data + Payload(sent[1..])
  }

  /** One after the other, the segments of a burst carry exactly the next bytes of the queue. */
  lemma {:induction false} SendLoopInOrder(t: Sock, limit: U16, now: U16, link: Link, k: nat)
    requires t.peerMss == 0 ==> limit == 0
    ensures var r := SendLoop(t, limit, now, link, k);
            && t.inflight <= r.t.inflight <= t.sndLen
            && Payload(r.sent) == SendQueue(t)[t.inflight..r.t.inflight]
    decreases t.sndLen - t.inflight
  {
    hide AfterEmit, AfterNew, NextSize, SegmentOf, SendQueue, Payload;
    AfterEmitFrame(t, FL_DATA, link(k));
    NextInOrder(t, 0, now);
    if MayBurst(t, limit) && link(k) == Ok {
      var n := NextSize(t, limit);
      var t2 := AfterNew(AfterEmit(t, FL_DATA, Ok), n, now);
      NextInOrder(t, n, now);
      SendLoopInOrder(t2, limit, now, link, k + 1);
      var rest := SendLoop(t2, limit, now, link, k + 1);
      var s := SegmentOf(t, FL_DATA, t.sndNxt, t.inflight, n, false);
      PayloadOf(s, rest.sent);
      Adjacent(SendQueue(t), t.inflight, t.inflight + n, rest.t.inflight);
    } else {
      NoPayload();
    }
  }

  lemma NextInOrder(t: Sock, n: nat, now: U16)
    requires t.inflight + n <= t.sndLen
    ensures var u := AfterNew(AfterEmit(t, FL_DATA, Ok), n, now);
            && u.inflight == t.inflight + n && u.sndLen == t.sndLen && u.peerMss == t.peerMss
            && SendQueue(u) == SendQueue(t) && |SendQueue(t)| == t.sndLen
    ensures SegmentOf(t, FL_DATA, t.sndNxt, t.inflight, n, false).data == SendQueue(t)[t.inflight..t.inflight + n]
  {
    hide AfterEmit, AfterNew;
    AfterEmitFrame(t, FL_DATA, Ok);
    AfterNewFrame(AfterEmit(t, FL_DATA, Ok), n, now);
  }

  lemma PayloadOf(s: Segment, rest: seq<Segment>)
    ensures Payload([s] + rest) == s.data + Payload(rest)
  {
    assert ([s] + rest)[1..] == rest;
  }

  lemma NoPayload()
    ensures Payload([]) == []
  {
  }

  lemma Adjacent(s: seq<Byte>, a: nat, b: nat, c: nat)
    requires a <= b <= c <= |s|
    ensures s[a..b] + s[b..c] == s[a..c]
  {
  }
}
