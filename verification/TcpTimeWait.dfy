/**
  TIME_WAIT: how it is entered, what restarts it, and when it ends.
*/
module TcpTimeWait {
  import opened Words
  import opened Common
  import opened Tcp
  import opened TcpInvariants
  import opened TcpWindow
  import opened TcpTimer

  // ----- the wait -----

  /** What an observer of the wait needs to know: whether it is over, whether an acknowledgement is due
      and, if not, the tick it is counted from. */
  datatype Vigil = Vigil(over: bool, due: bool, from: nat)

  /** The segment belongs to the connection. */
  predicate Mine(t: Sock, src: Addr, s: Segment) {
    t.localPort == s.dport && t.remotePort == s.sport && t.remoteIp == src
  }

  /** Data or a FIN, retransmitted or new, has to be acknowledged again. */
  predicate Renews(s: Segment) { s.fl.ack && (s.data != [] || s.fl.fin) }

  /** The wait is counted from the last poll that found an acknowledgement due; the first other poll
      100 ticks later ends it. */
  function Watched(t: Sock, v: Vigil, e: Timed): Vigil {
    match e.ev
    case EPoll(_) =>
      if v.due then Vigil(v.over, false, e.at)
      else v.(over := v.over || e.at >= v.from + TIME_WAIT_TICKS)
    case EArrive(src, s, _, _) => v.(due := v.due || (Mine(t, src, s) && Renews(s)))
    case _ => v
  }

  /** Neither an abort nor an RST, and polls that see the time modulo 2^16. */
  predicate Patient(v: Vigil, e: Timed) {
    match e.ev
    case EPoll(now) => now == Wrap16(e.at) && (v.due || v.from <= e.at < v.from + 0x1_0000)
    case EArrive(_, s, _, _) => !s.fl.rst
    case EAbort => false
    case _ => true
  }

  function Sequel(t: Sock, es: seq<Timed>): Sock {
    if es == [] then t
    else
      var e := es[|es| - 1];
      Apply(Sequel(t, es[..|es| - 1]), e.ev, e.link, e.k).t
  }

  function Watch(t: Sock, v: Vigil, es: seq<Timed>): Vigil {
    if es == [] then v else Watched(t, Watch(t, v, es[..|es| - 1]), es[|es| - 1])
  }

  /** Every step before the wait is over is a patient one. */
  predicate AllPatient(t: Sock, v: Vigil, es: seq<Timed>) {
    es == [] ||
    (AllPatient(t, v, es[..|es| - 1]) &&
     var w := Watch(t, v, es[..|es| - 1]);
     !w.over && Patient(w, es[|es| - 1]))
  }

  predicate SamePeer(t: Sock, u: Sock) {
    u.localPort == t.localPort && u.remotePort == t.remotePort && u.remoteIp == t.remoteIp
  }

  /** The socket is where the observer thinks. */
  predicate Seen(t: Sock, u: Sock, v: Vigil) {
    && SamePeer(t, u)
    && if v.over then u.state == Closed
       else u.state == TimeWait && u.ackPending == v.due && (!v.due ==> u.timewaitAt == Wrap16(v.from))
  }

  /** Same place in the wait. */
  predicate SameWait(t: Sock, u: Sock) { SamePeer(t, u) && u.state == t.state && u.timewaitAt == t.timewaitAt }

  lemma SegmentWaits(t: Sock, s: Segment, now: U16)
    requires t.state == TimeWait && !s.fl.rst
    ensures var u := SegmentInput(t, s, now); SameWait(t, u) && u.ackPending == (t.ackPending || Renews(s))
  {
    hide HandleAck, WantAck, InOrder;
    HandleAckWaits(t, s.ackno, now);
    HandleAckWaits(WantAck(t), s.ackno, now);
    WantWaits(t);
    InOrderWaits(t, s, now);
  }

  lemma WantWaits(t: Sock)
    ensures SameWait(t, WantAck(t)) && WantAck(t).ackPending
  {
  }

  lemma HandleAckWaits(t: Sock, ack: U32, now: U16)
    ensures var u := HandleAck(t, ack, now); SameWait(t, u) && u.ackPending == t.ackPending
  {
    hide AckNew, Acked, GrownCwnd;
  }

  lemma InOrderWaits(t: Sock, s: Segment, now: U16)
    requires t.state == TimeWait
    ensures var u := InOrder(t, s, now);
            SameWait(t, u) && u.ackPending == (t.ackPending || s.data != [] || s.fl.fin)
  {
    hide HandleAck, WithWindow, TakeData, TakeFin, OurFinAcked;
    var t1 := WithWindow(HandleAck(t, s.ackno, now), s.wnd);
    var t2 := TakeData(t1, s.data);
    HandleAckWaits(t, s.ackno, now);
    StageWaits(HandleAck(t, s.ackno, now), s.wnd);
    DataWaits(t1, s.data);
    FinWaits(t2);
    AckedWaits(t2);
    AckedWaits(TakeFin(t2));
  }

  lemma StageWaits(t: Sock, wnd: U16)
    ensures SameWait(t, WithWindow(t, wnd)) && WithWindow(t, wnd).ackPending == t.ackPending
  {
  }

  lemma DataWaits(t: Sock, data: seq<Byte>)
    ensures var u := TakeData(t, data); SameWait(t, u) && u.ackPending == (t.ackPending || data != [])
  {
    hide Wrap;
  }

  lemma FinWaits(t: Sock)
    requires t.state == TimeWait
    ensures SameWait(t, TakeFin(t)) && TakeFin(t).ackPending
  {
    hide Wrap;
  }

  lemma AckedWaits(t: Sock)
    requires t.state == TimeWait
    ensures OurFinAcked(t) == t
  {
  }

  lemma RecvWaits(t: Sock, cap: nat)
    requires t.state == TimeWait
    ensures SameWait(t, RecvBytes(t, cap)) && RecvBytes(t, cap).ackPending == t.ackPending
  {
    hide EdgeMoved, WantAck;
  }

  lemma PollPeer(t: Sock, now: U16, link: Link, k: nat)
    requires t.state == TimeWait
    ensures SamePeer(t, PollOne(t, now, link, k).t)
  {
    PollOnePolls(t, now, link, k);
    hide PollOne;
  }

  /** A poll that finds the last acknowledgement due sends it and begins the wait anew. */
  lemma LastAckBegins(t: Sock, now: U16, link: Link, k: nat)
    requires t.state == TimeWait && t.ackPending
    ensures var r := PollOne(t, now, link, k);
            && r.t.state == TimeWait && !r.t.ackPending && r.t.timewaitAt == now
            && r.calls == k + 1 && (link(k) == Ok ==> |r.sent| == 1 && r.sent[0].fl == FL_ACK)
  {
    hide PollHandshake, PollSynced, AckInTimeWait, Wrap16, SegmentOf;
    AckBegins(t, now, link, k);
    SmallWrap16(0);
  }

  lemma AckBegins(t: Sock, now: U16, link: Link, k: nat)
    requires t.state == TimeWait
    ensures var r := AckInTimeWait(t, now, link, k);
            && r.t.state == TimeWait && !r.t.ackPending && r.t.timewaitAt == now
            && r.calls == k + 1 && (link(k) == Ok ==> |r.sent| == 1 && r.sent[0].fl == FL_ACK)
  {
    hide AfterEmit, AckDone, WaitFrom;
    DoneFields(t);
    SpokenFields(AckDone(t), link(k));
    FromFields(AfterEmit(AckDone(t), FL_ACK, link(k)), now);
  }

  lemma DoneFields(t: Sock)
    ensures AckDone(t).state == t.state && !AckDone(t).ackPending
  {
  }

  lemma SpokenFields(t: Sock, r: Outcome)
    ensures AfterEmit(t, FL_ACK, r).state == t.state && AfterEmit(t, FL_ACK, r).ackPending == t.ackPending
  {
  }

  lemma FromFields(t: Sock, now: U16)
    ensures var u := WaitFrom(t, now); u.state == t.state && u.ackPending == t.ackPending && u.timewaitAt == now
  {
  }

  /** Any other poll ends the wait or leaves it alone. */
  lemma PollRests(t: Sock, now: U16, link: Link, k: nat)
    requires t.state == TimeWait && !t.ackPending
    ensures PollOne(t, now, link, k).t ==
            if Wrap16(now - t.timewaitAt) >= TIME_WAIT_TICKS then ToClosed(t) else t
  {
    hide PollHandshake, PollSynced, AckInTimeWait, Wrap16, ToClosed;
  }

  /** One patient step: the observer stays right. */
  lemma StepSeen(t: Sock, u: Sock, v: Vigil, e: Timed)
    requires Seen(t, u, v) && !v.over && Patient(v, e)
    ensures Seen(t, Apply(u, e.ev, e.link, e.k).t, Watched(t, v, e))
  {
    hide PollOne, SegmentInput, RecvBytes, Wrap16, ToClosed, PassiveOpen;
    match e.ev
    case EPoll(now) =>
      PollPeer(u, now, e.link, e.k);
      if v.due {
        LastAckBegins(u, now, e.link, e.k);
      } else {
        PollRests(u, now, e.link, e.k);
        ClosedState(u);
        ExactInterval(v.from, e.at);
      }
    case EArrive(src, s, iss, now) => SegmentWaits(u, s, now);
    case ERecv(cap) => RecvWaits(u, cap);
    case _ =>
  }

  lemma {:induction false} WaitSeen(t: Sock, v: Vigil, es: seq<Timed>)
    requires Seen(t, t, v) && AllPatient(t, v, es)
    ensures Seen(t, Sequel(t, es), Watch(t, v, es))
  {
    hide Seen, Apply, Watched, Patient;
    if es != [] {
      WaitSeen(t, v, es[..|es| - 1]);
      StepSeen(t, Sequel(t, es[..|es| - 1]), Watch(t, v, es[..|es| - 1]), es[|es| - 1]);
    }
  }

  /** Whatever polls, segments and calls follow, short of an abort or an RST: the wait that began at tick
      `a` is over exactly from the first poll on that finds no acknowledgement due and comes 100
      ticks after the last poll that did; every segment with data or a FIN makes one due again. */
  lemma WaitsOut(t: Sock, a: nat, es: seq<Timed>)
    requires t.state == TimeWait && (t.ackPending || t.timewaitAt == Wrap16(a))
    requires AllPatient(t, Vigil(false, t.ackPending, a), es)
    ensures var v := Watch(t, Vigil(false, t.ackPending, a), es);
            && Sequel(t, es).state == (if v.over then Closed else TimeWait)
            && (!v.over ==> Sequel(t, es).ackPending == v.due)
  {
    hide Watch, AllPatient, Sequel, Wrap16;
    WaitSeen(t, Vigil(false, t.ackPending, a), es);
  }

  // ----- entering -----

  /** A segment that leads to TIME_WAIT leaves an acknowledgement due, so that the wait begins with
      the next poll, exactly unless our FIN is acknowledged in CLOSING by an empty segment while
      no acknowledgement is due: then whatever `timewait_at` an earlier wait has left decides when
      this one ends. */
  lemma EntersTimeWait(t: Sock, s: Segment, now: U16)
    requires Synced(t) && t.state != TimeWait && SegmentInput(t, s, now).state == TimeWait
    ensures var u := SegmentInput(t, s, now);
            && u.timewaitAt == t.timewaitAt
            && (u.ackPending <==> t.state != Closing || t.ackPending || s.data != [] || s.fl.fin)
  {
    hide InOrder, HandleAck, WantAck, RstInput, Wf;
    HandleAckKeepsDue(t, s.ackno, now);
    HandleAckKeepsDue(WantAck(t), s.ackno, now);
    AckMark(t);
    InOrderDue(t, s, now);
    RstNoWait(t, s);
  }

  lemma RstNoWait(t: Sock, s: Segment)
    requires t.state != TimeWait
    ensures RstInput(t, s).state != TimeWait
  {
    hide RstInWindow;
  }

  lemma AckMark(t: Sock)
    ensures WantAck(t).state == t.state
  {
  }

  lemma HandleAckKeepsDue(t: Sock, ack: U32, now: U16)
    ensures var u := HandleAck(t, ack, now);
            u.state == t.state && u.ackPending == t.ackPending && u.timewaitAt == t.timewaitAt
  {
    hide AckNew, Acked, GrownCwnd;
  }

  lemma InOrderDue(t: Sock, s: Segment, now: U16)
    requires Synced(t) && t.state != TimeWait
    ensures var u := InOrder(t, s, now);
            && u.timewaitAt == t.timewaitAt
            && (u.state == TimeWait ==>
                  (u.ackPending <==> t.state != Closing || t.ackPending || s.data != [] || s.fl.fin))
  {
    hide HandleAck, WithWindow, TakeData, TakeFin, OurFinAcked;
    var t0 := HandleAck(t, s.ackno, now);
    var t1 := WithWindow(t0, s.wnd);
    var t2 := TakeData(t1, s.data);
    HandleAckKeepsDue(t, s.ackno, now);
    WindowDue(t0, s.wnd);
    DataDue(t1, s.data);
    FinDue(t2);
    AckedDue(t2);
    AckedDue(TakeFin(t2));
  }

  lemma WindowDue(t: Sock, wnd: U16)
    ensures var u := WithWindow(t, wnd); u.state == t.state && u.ackPending == t.ackPending && u.timewaitAt == t.timewaitAt
  {
  }

  lemma DataDue(t: Sock, data: seq<Byte>)
    ensures var u := TakeData(t, data);
            u.state == t.state && u.ackPending == (t.ackPending || data != []) && u.timewaitAt == t.timewaitAt
  {
    hide Wrap;
  }

  lemma FinDue(t: Sock)
    ensures var u := TakeFin(t); u.state == AfterPeerFin(t.state) && u.ackPending && u.timewaitAt == t.timewaitAt
  {
    hide Wrap;
  }

  lemma AckedDue(t: Sock)
    ensures var u := OurFinAcked(t);
            && u.ackPending == t.ackPending && u.timewaitAt == t.timewaitAt
            && (u.state == t.state || u.state == AfterOurFinAcked(t.state))
  {
  }

  // ----- how long it lasts -----

  /** Steps in the 100 ticks from tick `a` on, in order, and none of them an abort or an RST. */
  predicate Within(a: nat, es: seq<Timed>) {
    es == [] ||
    (var n := |es| - 1;
     && Within(a, es[..n])
     && (if n == 0 then a else es[n - 1].at) <= es[n].at < a + TIME_WAIT_TICKS
     && !es[n].ev.EAbort? && (es[n].ev.EArrive? ==> !es[n].ev.seg.fl.rst)
     && (es[n].ev.EPoll? ==> es[n].ev.now == Wrap16(es[n].at)))
  }

  /** As long as every step lies within 100 ticks of the start the observer sees no end. */
  lemma {:induction false} NotYet(t: Sock, due: bool, a: nat, es: seq<Timed>)
    requires Within(a, es)
    ensures AllPatient(t, Vigil(false, due, a), es) && !Watch(t, Vigil(false, due, a), es).over
    ensures es != [] ==> a <= es[|es| - 1].at
    ensures a <= Watch(t, Vigil(false, due, a), es).from <= if es == [] then a else es[|es| - 1].at
  {
    hide Renews, Mine, Wrap16;
    if es != [] {
      NotYet(t, due, a, es[..|es| - 1]);
    }
  }

  /** The wait that a segment begins at tick `a` lasts 100 ticks, whatever polls, segments and calls
      these bring short of an abort or an RST, exactly unless the segment is an empty one that
      acknowledges our FIN in CLOSING while no acknowledgement is due and `timewait_at`, which it does not
      set, differs from the tick. */
  lemma LastsInFull(t: Sock, s: Segment, a: nat, link: Link, k: nat)
    requires Synced(t) && t.state != TimeWait && SegmentInput(t, s, Wrap16(a)).state == TimeWait
    ensures (forall es :: Within(a, es) ==> Sequel(SegmentInput(t, s, Wrap16(a)), es).state == TimeWait)
            <==> t.state != Closing || t.ackPending || s.data != [] || s.fl.fin || t.timewaitAt == Wrap16(a)
  {
    hide SegmentInput, Wrap16, Sequel, Within, Watch, AllPatient;
    var u := SegmentInput(t, s, Wrap16(a));
    EntersTimeWait(t, s, Wrap16(a));
    if u.ackPending || u.timewaitAt == Wrap16(a) {
      forall es | Within(a, es) ensures Sequel(u, es).state == TimeWait {
        NotYet(u, u.ackPending, a, es);
        WaitsOut(u, a, es);
      }
    } else {
      var d := TooSoon(a, u.timewaitAt);
      var es := [Timed(EPoll(Wrap16(a + d)), a + d, link, k)];
      OnePoll(u, a, d, link, k);
      assert Within(a, es) && Sequel(u, es).state == Closed;
    }
  }

  /** The tick at which a wait counted from a stale `timewait_at` is over. */
  lemma TooSoon(a: nat, stale: U16) returns (d: nat)
    requires stale != Wrap16(a)
    ensures d < TIME_WAIT_TICKS && Wrap16(Wrap16(a + d) - stale) >= TIME_WAIT_TICKS
  {
    var w := Wrap16(a - stale);
    d := if w >= TIME_WAIT_TICKS then 0 else TIME_WAIT_TICKS - w;
  }

  lemma OnePoll(t: Sock, a: nat, d: nat, link: Link, k: nat)
    requires t.state == TimeWait && !t.ackPending && d < TIME_WAIT_TICKS
    requires Wrap16(Wrap16(a + d) - t.timewaitAt) >= TIME_WAIT_TICKS
    ensures var es := [Timed(EPoll(Wrap16(a + d)), a + d, link, k)];
            Within(a, es) && Sequel(t, es).state == Closed
  {
    hide PollOne, Wrap16, ToClosed;
    var e := Timed(EPoll(Wrap16(a + d)), a + d, link, k);
    PollRests(t, Wrap16(a + d), link, k);
    ClosedState(t);
    assert [e][..0] == [];
  }

  /** Cut short at once: with `timewait_at` still 0, as mn_tcp_init leaves it, an empty acknowledgement of our
      FIN in CLOSING, at any tick from 100 on and with none due, leads to TIME_WAIT and the poll of the
      same tick closes the socket. */
  lemma CutShort(t: Sock, s: Segment, now: U16, link: Link, k: nat)
    requires Inv(t) && t.state == Closing && t.sndUna != t.sndNxt && !t.ackPending
    requires t.timewaitAt == 0 && now >= TIME_WAIT_TICKS
    requires s.data == [] && !s.fl.fin && !s.fl.rst && s.fl.ack && s.seqno == t.rcvNxt && s.ackno == t.sndNxt
    ensures SegmentInput(t, s, now).state == TimeWait
    ensures PollOne(SegmentInput(t, s, now), now, link, k).t.state == Closed
  {
    hide SegmentInput, PollOne, Wrap16, Inv;
    LastFinAcked(t, s, now);
    EntersTimeWait(t, s, now);
    SmallWrap16(now);
    PollRests(SegmentInput(t, s, now), now, link, k);
    ClosedState(SegmentInput(t, s, now));
  }

  lemma LastFinAcked(t: Sock, s: Segment, now: U16)
    requires Inv(t) && t.state == Closing && t.sndUna != t.sndNxt
    requires s.data == [] && !s.fl.fin && !s.fl.rst && s.fl.ack && s.seqno == t.rcvNxt && s.ackno == t.sndNxt
    ensures SegmentInput(t, s, now).state == TimeWait
  {
    hide Inv, Wrap, HandleAck, WithWindow, TakeData, FinReached, OurFinAcked;
    var t0 := HandleAck(t, s.ackno, now);
    var t1 := WithWindow(t0, s.wnd);
    FinRetired(t, now);
    HandleAckKeepsDue(t, s.ackno, now);
    WindowDue(t0, s.wnd);
    WindowUna(t0, s.wnd);
    NothingTaken(t1, s);
    FinAckedLast(t1);
  }

  lemma FinRetired(t: Sock, now: U16)
    requires Inv(t) && t.state == Closing && t.sndUna != t.sndNxt
    ensures var u := HandleAck(t, t.sndNxt, now); u.finSent && u.sndUna == u.sndNxt
  {
    hide Inv, Wrap, AckNew, Acked, GrownCwnd;
    AckSpan(t);
    AckWindow(t, t.sndNxt);
    FinIsOut(t);
  }

  lemma WindowUna(t: Sock, wnd: U16)
    ensures var u := WithWindow(t, wnd); u.sndUna == t.sndUna && u.sndNxt == t.sndNxt && u.finSent == t.finSent
  {
  }

  lemma NothingTaken(t: Sock, s: Segment)
    requires s.data == [] && !s.fl.fin
    ensures TakeData(t, s.data) == t && !FinReached(t, s)
  {
  }

  lemma FinAckedLast(t: Sock)
    requires t.state == Closing && t.finSent && t.sndUna == t.sndNxt
    ensures OurFinAcked(t).state == TimeWait
  {
  }

  lemma FinIsOut(t: Sock)
    requires Inv(t) && t.state == Closing
    ensures t.finSent
  {
    hide Wrap;
  }
}
