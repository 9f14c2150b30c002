/**
  Retransmission is bounded.  Time is counted in ticks without wrapping; the code sees it
  modulo 2^16.  While something is outstanding and no acknowledgement advances, polls at
  most `g` ticks apart resend at most MAX_RETRIES times and then give up.
*/
module TcpTimer {
  import opened Words
  import opened Common
  import opened Tcp
  import opened TcpInvariants
  import opened TcpWindow
  import Net = TcpNetwork

  /** Our SYN or SYN|ACK is out. */
  predicate Knocking(t: Sock) { (t.state == SynSent || t.state == SynRcvd) && !t.synPending }

  /** Data or our FIN is out, in a state in which the retransmission timer of poll_one runs. */
  predicate Running(t: Sock) { Synced(t) && t.state != TimeWait && Outstanding(t) }

  /** The timer is running. */
  predicate Waiting(t: Sock) { Knocking(t) || Running(t) }

  /** The socket has given up: a listener listens again. */
  predicate Over(t: Sock) { t.state == Closed || t.state == Listen }

  /** The timer was last started at tick `armed`, `resends` of the resends since tick `start` have
      gone out, and the socket was last polled at tick `polled`. */
  datatype Clock = Clock(t: Sock, armed: nat, polled: nat, resends: nat)

  /** A step at a tick, with what the link answers to its attempts. */
  datatype Timed = Timed(ev: Event, at: nat, link: Link, k: nat)

  /** A step that is not a poll, brings no acknowledgement and leaves the timer to it: a SYN repeated in
      SYN_RCVD would make the SYN|ACK due again, and that restarts the timer. */
  predicate Unanswered(t: Sock, ev: Event, link: Link, k: nat) {
    && !ev.EPoll? && !ev.EAbort?
    && var u := Apply(t, ev, link, k).t; u.sndUna == t.sndUna && Waiting(u)
  }

  /** Polls at most `g` ticks apart that see the time modulo 2^16, and otherwise only
      steps that bring no acknowledgement; the link accepts a resent SYN, since one that it does
      not accept is no retry.  Nothing more is asked once the socket has given up. */
  predicate Silence(c: Clock, e: Timed, g: nat) {
    Over(c.t) ||
    if e.ev.EPoll? then
      && c.polled <= e.at <= c.polled + g && e.ev.now == Wrap16(e.at)
      && (Knocking(c.t) ==> e.link(e.k) == Ok)
    else Unanswered(c.t, e.ev, e.link, e.k)
  }

  function Tick(c: Clock, e: Timed): Clock {
    var r := Apply(c.t, e.ev, e.link, e.k);
    if Over(c.t) then c
    else if e.ev.EPoll? then
      if r.t.retries > c.t.retries && !Over(r.t)
      then Clock(r.t, e.at, e.at, c.resends + 1)
      else Clock(r.t, c.armed, e.at, c.resends)
    else c.(t := r.t)
  }

  function Ticks(c: Clock, es: seq<Timed>): Clock {
    if es == [] then c else Tick(Ticks(c, es[..|es| - 1]), es[|es| - 1])
  }

  predicate AllSilent(c: Clock, es: seq<Timed>, g: nat) {
    es == [] ||
    (AllSilent(c, es[..|es| - 1], g) && Silence(Ticks(c, es[..|es| - 1]), es[|es| - 1], g))
  }

  /** The longest time from the start to the n-th expiry: every timeout in full, each noticed `g` late. */
  function Spent(n: nat, g: nat): nat {
    if n == 0 then 0 else Spent(n - 1, g) + Backoff(n - 1) + g
  }

  lemma SpentInAll(g: nat)
    ensures Spent(MAX_RETRIES + 1, g) == 1550 + 6 * g
  {
    assert Spent(1, g) == 50 + g;
    assert Spent(2, g) == 150 + 2 * g;
    assert Spent(3, g) == 350 + 3 * g;
    assert Spent(4, g) == 750 + 4 * g;
    assert Spent(5, g) == 1150 + 5 * g;
  }

  /** The tick arithmetic of the source is exact for intervals shorter than 2^16. */
  lemma ExactInterval(armed: nat, at: nat)
    requires armed <= at < armed + 0x1_0000
    ensures Wrap16(Wrap16(at) - Wrap16(armed)) == at - armed
  {
  }

  /** The clock of a socket that began in SYN_RCVD (`passive`) or in another state. */
  predicate ClockInv(c: Clock, passive: bool, start: nat, g: nat) {
    if Over(c.t) then
      && c.t.state == (if passive then Listen else Closed) && (!passive ==> c.t.timeout)
      && c.polled < start + Spent(MAX_RETRIES + 1, g) && c.resends <= MAX_RETRIES
    else
      && (c.t.state == SynRcvd <==> passive)
      && Inv(c.t) && Waiting(c.t) && c.t.sentAt == Wrap16(c.armed)
      && c.armed <= c.polled < c.armed + c.t.rto
      && c.armed <= start + Spent(c.t.retries, g)
      && c.resends == c.t.retries
  }

  /** The timer neither restarts nor counts. */
  predicate GoesOn(t: Sock, u: Sock) {
    && Waiting(u) && u.sentAt == t.sentAt && u.retries == t.retries && u.rto == t.rto
    && (u.state == SynRcvd <==> t.state == SynRcvd)
  }

  /** The end of the wait: TIMEOUT, or back to listening. */
  predicate GivenUp(t: Sock, u: Sock) {
    if t.state == SynRcvd then u.state == Listen else u.state == Closed && u.timeout
  }

  /** One more resend, and the timer starts again. */
  predicate Resent(t: Sock, u: Sock, now: U16) {
    Waiting(u) && u.sentAt == now && u.retries == t.retries + 1 && (u.state == SynRcvd <==> t.state == SynRcvd)
  }

  lemma SendQueuedWaits(t: Sock, now: U16, link: Link, k: nat)
    requires Running(t) && t.inflight > 0
    ensures GoesOn(t, SendQueued(t, now, link, k).t)
  {
    SendLoopWaits(t, Min(t.sndWnd, t.cwnd), now, link, k);
    hide SendLoop;
  }

  lemma SendAckWaits(t: Sock, link: Link, k: nat)
    requires Running(t)
    ensures GoesOn(t, SendAck(t, link, k).t)
  {
    hide AfterEmit, AckDone;
    AfterEmitFrame(t, FL_ACK, link(k));
    AckDoneWaits(AfterEmit(t, FL_ACK, link(k)));
  }

  lemma AckDoneWaits(t: Sock)
    requires Running(t)
    ensures GoesOn(t, AckDone(t))
  {
  }

  /** What a poll does while the timer runs and has not expired: the timer goes on. */
  lemma PollWaits(t: Sock, now: U16, link: Link, k: nat)
    requires Inv(t) && Waiting(t) && !TimerExpired(t, now)
    ensures GoesOn(t, PollOne(t, now, link, k).t)
  {
    hide Inv, SendQueued, SendAck, SendFin, TimerExpired, ResendSyn, GiveUp, CountRetry, Outstanding;
    if Running(t) {
      RunningWaits(t, now, link, k);
    }
  }

  lemma RunningWaits(t: Sock, now: U16, link: Link, k: nat)
    requires Inv(t) && Running(t) && !TimerExpired(t, now)
    ensures GoesOn(t, PollOne(t, now, link, k).t)
  {
    if t.inflight == 0 {
      FinNothingQueued(t);
    } else {
      SendQueuedWaits(t, now, link, k);
    }
    SendAckWaits(t, link, k);
    hide Inv, SendQueued, SendAck, SendFin, TimerExpired;
  }

  lemma FinNothingQueued(t: Sock)
    requires Inv(t) && Synced(t) && t.finSent
    ensures t.sndLen == 0 && t.inflight == 0
  {
  }

  lemma {:induction false} SendLoopWaits(t: Sock, limit: U16, now: U16, link: Link, k: nat)
    requires Outstanding(t) && (t.peerMss == 0 ==> limit == 0)
    ensures var u := SendLoop(t, limit, now, link, k).t;
            && u.state == t.state && u.finSent == t.finSent && u.inflight >= t.inflight
            && (t.inflight > 0 ==> u.sentAt == t.sentAt) && u.retries == t.retries && u.rto == t.rto
    decreases t.sndLen - t.inflight
  {
    if MayBurst(t, limit) && link(k) == Ok {
      var t1 := AfterEmit(t, FL_DATA, Ok);
      AfterEmitFrame(t, FL_DATA, Ok);
      var t2 := AfterNew(t1, NextSize(t, limit), now);
      assert t2.state == t.state && (t.inflight > 0 ==> t2.sentAt == t.sentAt) && t2.retries == t.retries && t2.rto == t.rto;
      SendLoopWaits(t2, limit, now, link, k + 1);
    }
    hide Wrap;
  }

  /** What a poll does when the timer has expired: one resend at the doubled timeout, or the end. */
  lemma PollExpires(t: Sock, now: U16, link: Link, k: nat)
    requires Inv(t) && Waiting(t) && TimerExpired(t, now) && (Knocking(t) ==> link(k) == Ok)
    ensures var u := PollOne(t, now, link, k).t;
            if t.retries == MAX_RETRIES then GivenUp(t, u) else Resent(t, u, now)
  {
    hide Inv, Retransmit, TimerExpired, Outstanding, ResendSyn, CountRetry;
    if Running(t) {
      RetransmitExpires(t, now, link, k);
    } else {
      KnockExpires(t, now, link, k);
    }
  }

  lemma KnockExpires(t: Sock, now: U16, link: Link, k: nat)
    requires Knocking(t) && TimerExpired(t, now) && link(k) == Ok
    ensures var u := PollHandshake(t, now, link, k).t;
            if t.retries == MAX_RETRIES then GivenUp(t, u) else Resent(t, u, now)
  {
    hide TimerExpired, ResendSyn, Resent, CountRetry;
    if t.retries < MAX_RETRIES {
      KnocksAgain(t, now, link, k);
    }
  }

  lemma KnocksAgain(t: Sock, now: U16, link: Link, k: nat)
    requires Knocking(t) && t.retries < MAX_RETRIES && link(k) == Ok
    ensures Resent(t, ResendSyn(CountRetry(t), now, link, k).t, now)
  {
    hide *;
    var t1 := CountRetry(t);
    var t2 := Restart(t1, now);
    var fl := if t.state == SynSent then FL_SYN else FL_SYN_ACK;
    var t3 := AfterEmit(t2, fl, Ok);
    RetryFields(t);
    RestartFields(t1, now);
    EmitFields(t2, fl);
    SynSettled(t3);
    KnockSent(t1, now, link, k);
    Knocks(t, SynDue(t3, false), now);
  }

  lemma KnockSent(t: Sock, now: U16, link: Link, k: nat)
    requires link(k) == Ok
    ensures var fl := if t.state == SynSent then FL_SYN else FL_SYN_ACK;
            ResendSyn(t, now, link, k).t == SynDue(AfterEmit(Restart(t, now), fl, Ok), false)
  {
    RestartFields(t, now);
    hide Restart, AfterEmit, SynDue;
  }

  lemma RetryFields(t: Sock)
    requires t.retries < MAX_RETRIES
    ensures CountRetry(t).state == t.state && CountRetry(t).retries == t.retries + 1
  {
  }

  lemma RestartFields(t: Sock, now: U16)
    ensures var u := Restart(t, now); u.state == t.state && u.retries == t.retries && u.sentAt == now
  {
  }

  lemma EmitFields(t: Sock, fl: Flags)
    ensures var u := AfterEmit(t, fl, Ok); u.state == t.state && u.retries == t.retries && u.sentAt == t.sentAt
  {
    AfterEmitFrame(t, fl, Ok);
    hide AfterEmit;
  }

  lemma SynSettled(t: Sock)
    ensures var u := SynDue(t, false); !u.synPending && u.state == t.state && u.retries == t.retries && u.sentAt == t.sentAt
  {
  }

  lemma Knocks(t: Sock, u: Sock, now: U16)
    requires Knocking(t) && u.state == t.state && !u.synPending && u.retries == t.retries + 1 && u.sentAt == now
    ensures Resent(t, u, now)
  {
  }

  lemma RetransmitExpires(t: Sock, now: U16, link: Link, k: nat)
    requires Running(t)
    ensures var u := Retransmit(t, now, link, k).t;
            if t.retries == MAX_RETRIES then GivenUp(t, u) else Resent(t, u, now)
  {
    if t.retries < MAX_RETRIES {
      var t1 := OneSegment(Restart(CountRetry(t), now));
      assert Running(t1) && t1.sentAt == now && t1.retries == t.retries + 1;
      AfterEmitFrame(t1, FL_DATA, link(k));
      AfterEmitFrame(t1, FL_FIN_ACK, link(k));
      hide AfterEmit, OneSegment, Restart, CountRetry;
    }
  }

  /** Without a new acknowledgement no segment and no call of the application touches the timer. */
  lemma UnansweredGoesOn(t: Sock, ev: Event, link: Link, k: nat)
    requires Inv(t) && Waiting(t) && Unanswered(t, ev, link, k)
    ensures GoesOn(t, Apply(t, ev, link, k).t)
  {
    hide Inv, SegmentInput, RecvBytes, CloseDown, Wrap, Knocking, Running;
    if ev.EArrive? {
      if Owns(t, ev.src, ev.seg) {
        if Knocking(t) {
          KnockGoesOn(t, ev.seg, ev.now);
        } else {
          SegmentGoesOn(t, ev.seg, ev.now);
        }
      }
      StillWaiting(t);
    } else if ev.ERecv? {
      RecvGoesOn(t, ev.cap);
    } else if ev.EClose? {
      CloseGoesOn(t);
    } else {
      StillWaiting(t);
    }
  }

  lemma StillWaiting(t: Sock)
    requires Waiting(t)
    ensures GoesOn(t, t) && !Over(t) && (t.state == SynSent || t.state == SynRcvd <==> Knocking(t))
  {
  }

  /** Nothing but the right SYN|ACK, ACK or SYN, or a reset, moves a socket in the handshake. */
  lemma KnockGoesOn(t: Sock, s: Segment, now: U16)
    requires Inv(t) && Knocking(t)
    requires var u := SegmentInput(t, s, now); u.sndUna == t.sndUna && Waiting(u)
    ensures SegmentInput(t, s, now) == t
  {
    hide TakeMss, SyncedInput, Wrap;
    SynUnanswered(t);
    if !s.fl.rst && t.state == SynRcvd && !s.fl.syn && s.fl.ack && s.ackno == t.sndNxt && s.seqno == t.rcvNxt {
      EstablishedMoves(t, s, now);
    }
  }

  lemma SynUnanswered(t: Sock)
    requires Inv(t) && (t.state == SynSent || t.state == SynRcvd)
    ensures t.sndUna != t.sndNxt
  {
    WrapDiff(t.iss, 1);
    WrapZero(t.sndNxt, t.sndUna);
  }

  lemma EstablishedMoves(t: Sock, s: Segment, now: U16)
    requires Inv(t) && t.state == SynRcvd && s.ackno == t.sndNxt && s.seqno == t.rcvNxt && s.fl.ack
    ensures SyncedInput(Establish(t, s), s, now).sndUna == t.sndNxt
  {
    var t0 := Establish(t, s);
    assert t0.sndUna == s.ackno == t0.sndNxt && t0.rcvNxt == t.rcvNxt;
    WrapZero(s.ackno, t0.sndUna);
    hide Establish, Inv, Wrap, TakeData, TakeFin, OurFinAcked;
    var t1 := WithWindow(t0, s.wnd);
    assert HandleAck(t0, s.ackno, now) == t0;
    assert t1.sndUna == t0.sndUna;
    hide HandleAck;
    StageTimer(t1, s.data);
    StageTimer(TakeData(t1, s.data), []);
    StageTimer(TakeFin(TakeData(t1, s.data)), []);
  }

  lemma RecvGoesOn(t: Sock, cap: nat)
    requires Waiting(t)
    ensures GoesOn(t, RecvBytes(t, cap))
  {
    assert GoesOn(t, Drain(t, Min(cap, t.rcvCount)));
    assert GoesOn(t, WantAck(Drain(t, Min(cap, t.rcvCount))));
    hide Drain, WantAck, GoesOn, EdgeMoved;
  }

  lemma CloseGoesOn(t: Sock)
    requires Waiting(t) && Waiting(CloseDown(t))
    ensures GoesOn(t, CloseDown(t))
  {
    hide QueueFin, ToClosed, Waiting;
    Queued(t);
    NotWaiting(ToClosed(t));
    ClosedState(t);
  }

  lemma Queued(t: Sock)
    ensures QueueFin(t).state == t.state && QueueFin(t).sentAt == t.sentAt && QueueFin(t).retries == t.retries && QueueFin(t).rto == t.rto
  {
  }

  lemma NotWaiting(t: Sock)
    ensures t.state == Closed ==> !Waiting(t)
  {
  }

  lemma ClosedState(t: Sock)
    ensures ToClosed(t).state == Closed
  {
  }

  /** Same timer, whatever else differs. */
  predicate SameTimer(t: Sock, u: Sock) {
    u.sentAt == t.sentAt && u.retries == t.retries && u.rto == t.rto && u.sndUna == t.sndUna
  }

  lemma NewAckMoves(t: Sock, ack: U32, now: U16)
    requires HandleAck(t, ack, now).sndUna == t.sndUna
    ensures HandleAck(t, ack, now) == t
  {
    assert AckNew(t, ack) ==> ack != t.sndUna;
  }

  lemma InOrderTimer(t: Sock, s: Segment, now: U16)
    requires InOrder(t, s, now).sndUna == t.sndUna
    ensures SameTimer(t, InOrder(t, s, now))
  {
    var t0 := HandleAck(t, s.ackno, now);
    var t1 := WithWindow(t0, s.wnd);
    var t2 := TakeData(t1, s.data);
    StageTimer(t1, s.data);
    StageTimer(t2, s.data);
    StageTimer(TakeFin(t2), s.data);
    assert SameTimer(t0, t1);
    hide HandleAck, WithWindow, TakeData, TakeFin, OurFinAcked, FinReached;
    NewAckMoves(t, s.ackno, now);
  }

  lemma StageTimer(t: Sock, data: seq<Byte>)
    ensures SameTimer(t, TakeData(t, data)) && SameTimer(t, TakeFin(t)) && SameTimer(t, OurFinAcked(t))
  {
    hide Wrap;
  }

  lemma SegmentGoesOn(t: Sock, s: Segment, now: U16)
    requires Running(t)
    requires var u := SegmentInput(t, s, now); u.sndUna == t.sndUna && Waiting(u)
    ensures GoesOn(t, SegmentInput(t, s, now))
  {
    Net.SyncedRole(t, s, now);
    SegmentTimer(t, s, now);
    hide SegmentInput;
  }

  lemma SegmentTimer(t: Sock, s: Segment, now: U16)
    requires Synced(t) && SegmentInput(t, s, now).sndUna == t.sndUna && SegmentInput(t, s, now).state != Closed
    ensures SameTimer(t, SegmentInput(t, s, now))
  {
    hide InOrder, HandleAck, WantAck, RstInWindow;
    if s.fl.ack && s.seqno == t.rcvNxt && !s.fl.rst {
      InOrderTimer(t, s, now);
    } else if s.fl.ack && !s.fl.rst {
      WantTimer(t);
      var t1 := if s.data != [] || s.fl.fin then WantAck(t) else t;
      NewAckMoves(t1, s.ackno, now);
    }
  }

  lemma WantTimer(t: Sock)
    ensures SameTimer(t, WantAck(t))
  {
  }

  lemma PollTick(c: Clock, e: Timed, passive: bool, start: nat, g: nat)
    requires ClockInv(c, passive, start, g) && !Over(c.t) && e.ev.EPoll?
    requires Silence(c, e, g) && g + 400 < 0x1_0000
    ensures ClockInv(Tick(c, e), passive, start, g)
  {
    hide Inv, PollOne, Wrap16, Wf, Waiting, Backoff, Spent;
    var now := e.ev.now;
    PollOneInv(c.t, now, e.link, e.k);
    SpentNext(c.t.retries, g);
    PollRto(c.t);
    ExactInterval(c.armed, e.at);
    if TimerExpired(c.t, now) {
      PollExpires(c.t, now, e.link, e.k);
    } else {
      PollWaits(c.t, now, e.link, e.k);
    }
    PollRto(PollOne(c.t, now, e.link, e.k).t);
    SpentNext(PollOne(c.t, now, e.link, e.k).t.retries, g);
  }

  lemma SpentNext(n: nat, g: nat)
    ensures Spent(n + 1, g) == Spent(n, g) + Backoff(n) + g && Backoff(n) >= RTO_INITIAL && Spent(0, g) == 0
  {
  }

  lemma PollRto(t: Sock)
    ensures t.rto == Backoff(t.retries) <= RTO_MAX && (Live(t) ==> t.retries <= MAX_RETRIES)
    ensures Waiting(t) ==> t.retries <= MAX_RETRIES && !Over(t)
  {
  }

  /** No timer fires early: a poll less than the timeout after the last start leaves it running, counts no retry
      and gives up nothing, across the wrap of the tick. */
  lemma NeverEarly(t: Sock, armed: nat, at: nat, link: Link, k: nat)
    requires Inv(t) && Waiting(t) && t.sentAt == Wrap16(armed)
    requires armed <= at < armed + Backoff(t.retries)
    ensures GoesOn(t, PollOne(t, Wrap16(at), link, k).t)
  {
    hide Inv, PollOne, Wrap16, Waiting, Backoff, GoesOn;
    PollRto(t);
    ExactInterval(armed, at);
    PollWaits(t, Wrap16(at), link, k);
  }

  lemma TickInv(c: Clock, e: Timed, passive: bool, start: nat, g: nat)
    requires ClockInv(c, passive, start, g) && Silence(c, e, g) && g + 400 < 0x1_0000
    ensures ClockInv(Tick(c, e), passive, start, g)
  {
    if !Over(c.t) {
      if e.ev.EPoll? {
        PollTick(c, e, passive, start, g);
      } else {
        ApplyInv(c.t, e.ev, e.link, e.k);
        UnansweredGoesOn(c.t, e.ev, e.link, e.k);
        hide Inv, Apply, Wf;
      }
    }
  }

  lemma {:induction false} TicksInv(c: Clock, es: seq<Timed>, passive: bool, start: nat, g: nat)
    requires ClockInv(c, passive, start, g) && AllSilent(c, es, g) && g + 400 < 0x1_0000
    ensures ClockInv(Ticks(c, es), passive, start, g)
  {
    hide ClockInv, Silence, Tick;
    if es != [] {
      TicksInv(c, es[..|es| - 1], passive, start, g);
      TickInv(Ticks(c, es[..|es| - 1]), es[|es| - 1], passive, start, g);
    }
  }

  /** Retransmission is bounded: from the tick `start` at which the timer of a SYN, of a SYN|ACK, of
      outstanding data or of our FIN was started, with no new acknowledgement and polls at most `g`
      ticks apart, at most five resends happen, and every poll up to the one that gives up comes
      less than 1550 + 6 g ticks after the start; that one reports TIMEOUT, or listens again. */
  lemma GivesUpInTime(t: Sock, start: nat, g: nat, es: seq<Timed>)
    requires Inv(t) && Waiting(t) && t.retries == 0 && t.sentAt == Wrap16(start) && g + 400 < 0x1_0000
    requires AllSilent(Clock(t, start, start, 0), es, g)
    ensures var c := Ticks(Clock(t, start, start, 0), es);
            && c.resends <= MAX_RETRIES && c.polled < start + 1550 + 6 * g
            && (Over(c.t) ==> GivenUp(t, c.t))
            && (es != [] && es[|es| - 1].ev.EPoll? && es[|es| - 1].at >= start + 1550 + 6 * g ==> Over(c.t))
  {
    hide Inv, Ticks, AllSilent, Waiting, Wf, Spent, Backoff;
    SpentInAll(g);
    SpentNext(0, g);
    PollRto(t);
    TicksInv(Clock(t, start, start, 0), es, t.state == SynRcvd, start, g);
    var c := Ticks(Clock(t, start, start, 0), es);
    PollRto(c.t);
    SpentNext(c.t.retries, g);
    SpentMonotone(c.t.retries + 1, MAX_RETRIES + 1, g);
    if es != [] && es[|es| - 1].ev.EPoll? && !Over(c.t) {
      LastTick(Clock(t, start, start, 0), es);
    }
  }

  lemma LastTick(c: Clock, es: seq<Timed>)
    requires es != [] && es[|es| - 1].ev.EPoll? && !Over(Ticks(c, es).t)
    ensures Ticks(c, es).polled == es[|es| - 1].at
  {
    hide Apply;
  }

  lemma {:induction false} SpentMonotone(m: nat, n: nat, g: nat)
    ensures m <= n ==> Spent(m, g) <= Spent(n, g)
    decreases n
  {
    if m < n {
      SpentMonotone(m, n - 1, g);
    }
  }

  /** Still in FIN_WAIT_2 with our FIN acknowledged. */
  predicate HalfClosed(t: Sock) { t.state == FinWait2 && t.finSent && t.sndUna == t.sndNxt }

  lemma HalfClosedInOrder(t: Sock, s: Segment, now: U16)
    requires HalfClosed(t) && !AckNew(t, s.ackno) && !s.fl.fin
    ensures HalfClosed(InOrder(t, s, now)) && InOrder(t, s, now).sndUna == t.sndUna
  {
    var t1 := WithWindow(t, s.wnd);
    var t2 := TakeData(t1, s.data);
    TakeDataKept(t1, s.data);
    StageTimer(t1, s.data);
    assert t2.sndNxt == t1.sndNxt;
    assert HandleAck(t, s.ackno, now) == t;
    assert OurFinAcked(t2) == t2 by {
      hide TakeData;
    }
    hide HandleAck, TakeData, OurFinAcked, Takes;
  }

  /** FIN_WAIT_2 never leaves this timer, because `fin_sent` stays set after our FIN has been
      acknowledged: no segment except a FIN or an RST, whatever it carries, counts as an answer. */
  lemma HalfClosedIsUnanswered(t: Sock, src: Addr, s: Segment, iss: U32, now: U16, link: Link, k: nat)
    requires Inv(t) && t.state == FinWait2 && !s.fl.fin && !s.fl.rst
    ensures Waiting(t) && Unanswered(t, EArrive(src, s, iss, now), link, k)
    ensures Apply(t, EArrive(src, s, iss, now), link, k).t.state == FinWait2
  {
    hide Inv, SyncedInput, PassiveOpen, RstInput, SynSentInput, SynRcvdInput, BareSyn, Owns, Wf;
    HalfClosedSynced(t, s, now);
  }

  lemma HalfClosedSynced(t: Sock, s: Segment, now: U16)
    requires Inv(t) && t.state == FinWait2 && !s.fl.fin
    ensures HalfClosed(t) && HalfClosed(SyncedInput(t, s, now)) && SyncedInput(t, s, now).sndUna == t.sndUna
  {
    AckWindow(t, s.ackno);
    WrapZero(t.sndNxt, t.sndUna);
    assert HalfClosed(t);
    hide Inv, Wrap, InOrder;
    assert !AckNew(t, s.ackno) && !AckNew(WantAck(t), s.ackno);
    assert HalfClosed(WantAck(t)) && WantAck(t).sndUna == t.sndUna;
    HalfClosedInOrder(t, s, now);
    hide AckNew, WantAck;
  }

  /** A connect whose SYN the link accepts starts the timer. */
  lemma ConnectKnocks(t: Sock, ip: Addr, port: U16, localPort: U16, iss: U32, now: U16, link: Link, k: nat)
    requires Inv(t) && t.state == Closed && link(k) == Ok
    ensures var u := Connect(t, ip, port, localPort, iss, now, link, k).t;
            Inv(u) && Waiting(u) && u.retries == 0 && u.sentAt == now
  {
    ConnectInv(t, ip, port, localPort, iss, now, link, k);
    hide Inv, Wrap;
  }

  /** A SYN whose answer the link accepts starts the timer, too. */
  lemma PassiveKnocks(t: Sock, src: Addr, s: Segment, iss: U32, now: U16, link: Link, k: nat)
    requires Inv(t) && t.state == Listen && link(k) == Ok
    ensures var u := PassiveOpen(t, src, s, iss, now, link, k).t;
            Inv(u) && Waiting(u) && u.state == SynRcvd && u.retries == 0 && u.sentAt == now
  {
    PassiveOpenInv(t, src, s, iss, now, link, k);
    hide Inv, Wrap, TakeMss;
  }
}
