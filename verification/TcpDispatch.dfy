/**
  The dispatcher of mn_tcp_input over a set of sockets: who gets a segment, what becomes of
  one that nobody owns, and why no two connections ever share a four-tuple.
*/
module TcpDispatch {
  import opened Words
  import opened Common
  import opened Tcp
  import opened TcpInvariants
  import opened TcpWindow

  /** The first socket that owns the segment, or the number of sockets. */
  function Owner(socks: seq<Sock>, src: Addr, s: Segment): (i: nat)
    ensures i <= |socks| && (forall j :: 0 <= j < i ==> !Owns(socks[j], src, s))
    ensures i < |socks| ==> Owns(socks[i], src, s)
  {
    if socks == [] || Owns(socks[0], src, s) then 0 else 1 + Owner(socks[1..], src, s)
  }

  /** The first socket that listens for the SYN, or the number of sockets. */
  function Listener(socks: seq<Sock>, s: Segment): (i: nat)
    ensures i <= |socks| && (forall j :: 0 <= j < i ==> !Listens(socks[j], s))
    ensures i < |socks| ==> Listens(socks[i], s)
  {
    if socks == [] || Listens(socks[0], s) then 0 else 1 + Listener(socks[1..], s)
  }

  lemma FirstOwner(socks: seq<Sock>, src: Addr, s: Segment, i: nat)
    requires i <= |socks| && (forall j :: 0 <= j < i ==> !Owns(socks[j], src, s))
    requires i < |socks| ==> Owns(socks[i], src, s)
    ensures Owner(socks, src, s) == i
  {
    hide Owns;
  }

  lemma FirstListener(socks: seq<Sock>, s: Segment, i: nat)
    requires i <= |socks| && (forall j :: 0 <= j < i ==> !Listens(socks[j], s))
    requires i < |socks| ==> Listens(socks[i], s)
    ensures Listener(socks, s) == i
  {
    hide Listens;
  }

  /** The RST that answers a segment nobody owns (RFC 9293, section 3.5.2). */
  function RstReply(s: Segment): Segment {
    var len := |s.data| + (if s.fl.syn then 1 else 0) + (if s.fl.fin then 1 else 0);
    Segment(s.dport, s.sport, if s.fl.ack then s.ackno else 0,
            if s.fl.ack then 0 else Wrap(s.seqno + len),
            Flags(false, false, true, false, !s.fl.ack), 0, [], [])
  }

  /** Where a segment goes: at most one socket, and at most one RST in answer. */
  datatype Verdict = ToOwner(i: nat) | ToListener(i: nat) | Rejected(rst: Segment) | Ignored

  function Route(socks: seq<Sock>, src: Addr, s: Segment): Verdict {
    var i := Owner(socks, src, s);
    var j := Listener(socks, s);
    if i < |socks| then ToOwner(i)
    else if BareSyn(s) && j < |socks| then ToListener(j)
    else if s.fl.rst then Ignored
    else Rejected(RstReply(s))
  }

  /** The set after one segment; `iss` is the initial sequence number a passive open would take. */
  function Dispatch(socks: seq<Sock>, src: Addr, s: Segment, iss: U32, now: U16, link: Link, k: nat): (r: seq<Sock>)
    ensures |r| == |socks|
  {
    match Route(socks, src, s)
    case ToOwner(i) => if i < |socks| then socks[i := SegmentInput(socks[i], s, now)] else socks
    case ToListener(j) => if j < |socks| then socks[j := PassiveOpen(socks[j], src, s, iss, now, link, k).t] else socks
    case _ => socks
  }

  /** A segment changes no socket but the one it is routed to. */
  lemma OthersUntouched(socks: seq<Sock>, src: Addr, s: Segment, iss: U32, now: U16, link: Link, k: nat, m: nat)
    requires m < |socks| && Route(socks, src, s) != ToOwner(m) && Route(socks, src, s) != ToListener(m)
    ensures Dispatch(socks, src, s, iss, now, link, k)[m] == socks[m]
  {
    hide SegmentInput, PassiveOpen, RstReply;
  }

  // ----- four-tuples -----

  predicate SameTuple(t: Sock, u: Sock) {
    t.localPort == u.localPort && t.remotePort == u.remotePort && t.remoteIp == u.remoteIp
  }

  /** No two live sockets share a four-tuple. */
  predicate Distinct(socks: seq<Sock>) {
    forall i, j :: 0 <= i < j < |socks| && Live(socks[i]) && Live(socks[j]) ==> !SameTuple(socks[i], socks[j])
  }

  /** With distinct four-tuples a segment has at most one owner. */
  lemma OneOwner(socks: seq<Sock>, src: Addr, s: Segment, i: nat, j: nat)
    requires Distinct(socks) && i < |socks| && j < |socks| && Owns(socks[i], src, s) && Owns(socks[j], src, s)
    ensures i == j
  {
  }

  /** A segment to a port that no socket uses reaches nobody: it is answered with an RST unless it is one. */
  lemma NobodyHome(socks: seq<Sock>, src: Addr, s: Segment)
    requires forall i :: 0 <= i < |socks| ==> socks[i].localPort != s.dport
    ensures Route(socks, src, s) == if s.fl.rst then Ignored else Rejected(RstReply(s))
  {
    hide RstReply, BareSyn;
  }

  /** Only a bare SYN opens a listener, and only if nobody owns it. */
  lemma OnlySynsOpen(socks: seq<Sock>, src: Addr, s: Segment, j: nat)
    requires Route(socks, src, s) == ToListener(j)
    ensures j < |socks| && socks[j].state == Listen && socks[j].localPort == s.dport
    ensures s.fl.syn && !s.fl.ack && !s.fl.rst && forall i :: 0 <= i < |socks| ==> !Owns(socks[i], src, s)
  {
    hide RstReply, Owns;
  }

  /** What can happen to a set: something to one socket, or a segment for whoever wants it. */
  datatype SetEvent =
    | ToSocket(i: nat, ev: Event, link: Link, k: nat)
    | Incoming(src: Addr, seg: Segment, iss: U32, now: U16, link: Link, k: nat)

  /** A connect picks a four-tuple no other live socket has; segments come through the dispatcher. */
  predicate Fair(socks: seq<Sock>, e: SetEvent) {
    e.ToSocket? ==>
      && e.i < |socks| && !e.ev.EArrive?
      && (e.ev.EConnect? ==>
            forall j :: 0 <= j < |socks| && j != e.i && Live(socks[j]) ==>
              !(socks[j].localPort == e.ev.localPort && socks[j].remotePort == e.ev.port && socks[j].remoteIp == e.ev.ip))
  }

  function SetStep(socks: seq<Sock>, e: SetEvent): (r: seq<Sock>)
    ensures |r| == |socks|
  {
    match e
    case ToSocket(i, ev, link, k) => if i < |socks| then socks[i := Apply(socks[i], ev, link, k).t] else socks
    case Incoming(src, seg, iss, now, link, k) => Dispatch(socks, src, seg, iss, now, link, k)
  }

  function SetRun(socks: seq<Sock>, es: seq<SetEvent>): (r: seq<Sock>)
    ensures |r| == |socks|
  {
    if es == [] then socks else SetStep(SetRun(socks, es[..|es| - 1]), es[|es| - 1])
  }

  predicate AllFair(socks: seq<Sock>, es: seq<SetEvent>) {
    es == [] || (AllFair(socks, es[..|es| - 1]) && Fair(SetRun(socks, es[..|es| - 1]), es[|es| - 1]))
  }

  /** The socket's tuple stays, or the socket is not live. */
  predicate KeepsTuple(t: Sock, u: Sock) { Live(u) ==> Live(t) && SameTuple(t, u) }

  lemma HandleAckTuple(t: Sock, ack: U32, now: U16)
    ensures SameTuple(t, HandleAck(t, ack, now)) && HandleAck(t, ack, now).state == t.state
  {
    HandleAckFrame(t, ack, now);
    HandleAckKept(t, ack, now);
    hide HandleAck;
  }

  lemma StageTuple(t: Sock, s: Segment)
    ensures SameTuple(t, TakeData(t, s.data)) && SameTuple(t, TakeFin(t)) && SameTuple(t, OurFinAcked(t))
  {
    hide Wrap;
  }

  lemma MarkTuple(t: Sock, s: Segment)
    ensures SameTuple(t, WithWindow(t, s.wnd)) && SameTuple(t, WantAck(t))
    ensures SameTuple(t, Establish(t, s)) && SameTuple(t, SynDue(t, true)) && SameTuple(t, t)
  {
  }

  lemma SegmentTuple(t: Sock, s: Segment, now: U16)
    ensures SameTuple(t, SegmentInput(t, s, now))
  {
    hide RstInput, SynSentInput, SyncedInput, Establish, SynDue, SameTuple;
    RstTuple(t, s);
    SynSentTuple(t, s);
    SyncedTuple(t, s, now);
    MarkTuple(t, s);
    SyncedTuple(Establish(t, s), s, now);
    TupleTrans(t, Establish(t, s), SyncedInput(Establish(t, s), s, now));
  }

  lemma RstTuple(t: Sock, s: Segment)
    ensures SameTuple(t, RstInput(t, s))
  {
    assert SameTuple(t, Refused(t)) && SameTuple(t, Relisten(t)) && SameTuple(t, Reset(t)) && SameTuple(t, t);
    hide SameTuple, Refused, Relisten, Reset, RstInWindow;
  }

  lemma SynSentTuple(t: Sock, s: Segment)
    ensures SameTuple(t, SynSentInput(t, s))
  {
    hide SynAcked, SameTuple;
    SynAckedTuple(t, s);
    MarkTuple(t, s);
  }

  lemma SynAckedTuple(t: Sock, s: Segment)
    ensures SameTuple(t, SynAcked(t, s))
  {
    hide Wrap, TakeMss, Wrap16;
  }

  lemma TupleTrans(t: Sock, u: Sock, v: Sock)
    requires SameTuple(t, u) && SameTuple(u, v)
    ensures SameTuple(t, v)
  {
  }

  lemma SyncedTuple(t: Sock, s: Segment, now: U16)
    ensures SameTuple(t, SyncedInput(t, s, now))
  {
    HandleAckTuple(t, s.ackno, now);
    HandleAckTuple(WantAck(t), s.ackno, now);
    MarkTuple(t, s);
    InOrderTuple(t, s, now);
    hide HandleAck, WantAck, InOrder;
  }

  lemma InOrderTuple(t: Sock, s: Segment, now: U16)
    ensures SameTuple(t, InOrder(t, s, now))
  {
    hide HandleAck, WithWindow, TakeData, TakeFin, OurFinAcked, FinReached, SameTuple;
    var t0 := HandleAck(t, s.ackno, now);
    var t1 := WithWindow(t0, s.wnd);
    var t2 := TakeData(t1, s.data);
    var t3 := if FinReached(t1, s) then TakeFin(t2) else t2;
    HandleAckTuple(t, s.ackno, now);
    MarkTuple(t0, s);
    TupleTrans(t, t0, t1);
    StageTuple(t1, s);
    TupleTrans(t, t1, t2);
    StageTuple(t2, s);
    MarkTuple(t2, s);
    TupleTrans(t, t2, t3);
    StageTuple(t3, s);
    TupleTrans(t, t3, OurFinAcked(t3));
  }

  lemma EmitTuple(t: Sock, fl: Flags, r: Outcome)
    ensures SameTuple(t, AfterEmit(t, fl, r)) && AfterEmit(t, fl, r).state == t.state
  {
    AfterEmitFrame(t, fl, r);
  }

  lemma CloseTuple(t: Sock)
    ensures SameTuple(t, CloseDown(t)) && (Live(CloseDown(t)) ==> Live(t))
  {
    hide QueueFin, ToClosed, SameTuple;
    EndTuple(t);
  }

  lemma EndTuple(t: Sock)
    ensures SameTuple(t, QueueFin(t)) && QueueFin(t).state == t.state && SameTuple(t, t)
    ensures SameTuple(t, ToClosed(t)) && !Live(ToClosed(t))
    ensures t.state == Closed ==> !Live(t)
  {
  }

  lemma RecvTuple(t: Sock, cap: nat)
    ensures SameTuple(t, RecvBytes(t, cap)) && RecvBytes(t, cap).state == t.state
  {
    var n := Min(cap, t.rcvCount);
    assert SameTuple(t, Drain(t, n)) && Drain(t, n).state == t.state;
    assert SameTuple(t, WantAck(Drain(t, n))) && WantAck(Drain(t, n)).state == t.state;
    hide Drain, WantAck, EdgeMoved, SameTuple;
  }

  /** Nothing but a connect or a passive open gives a socket a new four-tuple. */
  lemma ApplyTuple(t: Sock, ev: Event, link: Link, k: nat)
    requires Inv(t) && !ev.EConnect? && !ev.EArrive?
    ensures KeepsTuple(t, Apply(t, ev, link, k).t)
  {
    match ev
    case EListen(port) => hide Inv;
    case ESend(data) => hide Inv;
    case ERecv(cap) => RecvTuple(t, cap); hide Inv, RecvBytes;
    case EClose => CloseTuple(t); hide Inv, CloseDown;
    case EAbort => hide Inv;
    case EPoll(now) =>
      HandshakeEof(t);
      PollOnePolls(t, now, link, k);
      hide Inv, PollOne;
  }

  predicate AllInv(socks: seq<Sock>) { forall i :: 0 <= i < |socks| ==> Inv(socks[i]) }

  /** Replacing one socket keeps the four-tuples apart, if the new one clashes with nobody. */
  lemma ReplaceDistinct(socks: seq<Sock>, i: nat, u: Sock)
    requires i < |socks| && Distinct(socks)
    requires forall j :: 0 <= j < |socks| && j != i && Live(socks[j]) && Live(u) ==> !SameTuple(socks[j], u)
    ensures Distinct(socks[i := u])
  {
    var r := socks[i := u];
    forall a, b | 0 <= a < b < |r| && Live(r[a]) && Live(r[b])
      ensures !SameTuple(r[a], r[b])
    {
      if a == i {
        assert !SameTuple(socks[b], u);
      } else if b == i {
        assert !SameTuple(socks[a], u);
      }
    }
  }

  lemma KeptDistinct(socks: seq<Sock>, i: nat, u: Sock)
    requires i < |socks| && Distinct(socks) && KeepsTuple(socks[i], u)
    ensures Distinct(socks[i := u])
  {
    forall j | 0 <= j < |socks| && j != i && Live(socks[j]) && Live(u)
      ensures !SameTuple(socks[j], u)
    {
      if j < i {
        assert !SameTuple(socks[j], socks[i]);
      } else {
        assert !SameTuple(socks[i], socks[j]);
      }
    }
    ReplaceDistinct(socks, i, u);
  }

  lemma ConnectTuple(t: Sock, ip: Addr, port: U16, localPort: U16, iss: U32, now: U16, link: Link, k: nat)
    ensures var u := Connect(t, ip, port, localPort, iss, now, link, k).t;
            u == t || (u.localPort == localPort && u.remotePort == port && u.remoteIp == ip)
  {
    if t.state == Closed {
      EmitTuple(Connecting(t, ip, port, localPort, iss, now), FL_SYN, link(k));
    }
    hide AfterEmit;
  }

  lemma PassiveTuple(t: Sock, src: Addr, s: Segment, iss: U32, now: U16, link: Link, k: nat)
    ensures var u := PassiveOpen(t, src, s, iss, now, link, k).t;
            u.localPort == t.localPort && u.remotePort == s.sport && u.remoteIp == src
  {
    EmitTuple(Opening(t, src, s, iss, now), FL_SYN_ACK, link(k));
    hide AfterEmit, TakeMss, Wrap;
  }

  lemma OwnStep(socks: seq<Sock>, e: SetEvent)
    requires AllInv(socks) && Distinct(socks) && Fair(socks, e) && e.ToSocket?
    ensures AllInv(SetStep(socks, e)) && Distinct(SetStep(socks, e))
  {
    hide Inv, Apply, Connect, SameTuple;
    ApplyInv(socks[e.i], e.ev, e.link, e.k);
    var u := Apply(socks[e.i], e.ev, e.link, e.k).t;
    if e.ev.EConnect? {
      ConnectStep(socks, e);
    } else {
      ApplyTuple(socks[e.i], e.ev, e.link, e.k);
      KeptDistinct(socks, e.i, u);
    }
  }

  lemma ConnectStep(socks: seq<Sock>, e: SetEvent)
    requires Distinct(socks) && Fair(socks, e) && e.ToSocket? && e.ev.EConnect?
    ensures Distinct(socks[e.i := Apply(socks[e.i], e.ev, e.link, e.k).t])
  {
    var ev := e.ev;
    var u := Connect(socks[e.i], ev.ip, ev.port, ev.localPort, ev.iss, ev.now, e.link, e.k).t;
    ConnectTuple(socks[e.i], ev.ip, ev.port, ev.localPort, ev.iss, ev.now, e.link, e.k);
    hide Connect;
    if u == socks[e.i] {
      KeptDistinct(socks, e.i, u);
    } else {
      ReplaceDistinct(socks, e.i, u);
    }
  }

  lemma IncomingStep(socks: seq<Sock>, src: Addr, s: Segment, iss: U32, now: U16, link: Link, k: nat)
    requires AllInv(socks) && Distinct(socks)
    ensures AllInv(Dispatch(socks, src, s, iss, now, link, k)) && Distinct(Dispatch(socks, src, s, iss, now, link, k))
  {
    hide Inv, SegmentInput, PassiveOpen, RstReply, Owner, Listener;
    match Route(socks, src, s) {
      case ToOwner(i) =>
        SegmentInputInv(socks[i], s, now);
        SegmentTuple(socks[i], s, now);
        KeptDistinct(socks, i, SegmentInput(socks[i], s, now));
      case ToListener(j) =>
        PassiveOpenInv(socks[j], src, s, iss, now, link, k);
        PassiveTuple(socks[j], src, s, iss, now, link, k);
        ReplaceDistinct(socks, j, PassiveOpen(socks[j], src, s, iss, now, link, k).t);
      case _ =>
    }
  }

  /** In any run in which no connect picks a four-tuple in use, no two live sockets share one. */
  lemma {:induction false} TuplesStayDistinct(socks: seq<Sock>, es: seq<SetEvent>)
    requires AllInv(socks) && Distinct(socks) && AllFair(socks, es)
    ensures AllInv(SetRun(socks, es)) && Distinct(SetRun(socks, es))
  {
    hide Inv, SameTuple, Apply, Dispatch, Fair;
    if es != [] {
      TuplesStayDistinct(socks, es[..|es| - 1]);
      var before, e := SetRun(socks, es[..|es| - 1]), es[|es| - 1];
      if e.ToSocket? {
        OwnStep(before, e);
      } else {
        IncomingStep(before, e.src, e.seg, e.iss, e.now, e.link, e.k);
      }
    }
  }
}
