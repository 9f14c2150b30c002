/**
  The TCP socket of src/net/mn_tcp.c as a state machine on values: one function per
  C function, same branches, same constants.

  The two rings are represented by the history of the connection.  `acc` is every byte
  accepted by mn_tcp_send since the counters were last reset; the send ring holds its last
  `sndLen` bytes.  `got` is every byte ever put in the receive ring; the ring holds its last
  `rcvCount` bytes.  `rcvAbs` and `edgeAbs` are `rcvNxt` and `advEdge` counted from `irs`
  without wrapping (`edgeAbs` is 0 until a segment carrying ACK has been built).  The
  histories are only written, never read, by the code's own decisions.
*/
module Tcp {
  import opened Words
  import opened Common

  const RCVBUF: int := 4096
  const SNDBUF: int := 3072
  const MSS: int := 1460
  const WINDOW_CAP: int := 2048
  const RTO_INITIAL: int := 50
  const RTO_MAX: int := 400
  const MAX_RETRIES: int := 5
  const TIME_WAIT_TICKS: int := 100
  const WINUPDATE_GROW: int := 256
  const CWND_MAX: int := 4

  datatype State = Closed | SynSent | Established | FinWait1 | FinWait2 | CloseWait
                 | Closing | LastAck | TimeWait | Listen | SynRcvd

  datatype Flags = Flags(fin: bool, syn: bool, rst: bool, psh: bool, ack: bool)

  const FL_SYN: Flags := Flags(false, true, false, false, false)
  const FL_SYN_ACK: Flags := Flags(false, true, false, false, true)
  const FL_RST_ACK: Flags := Flags(false, false, true, false, true)
  const FL_ACK: Flags := Flags(false, false, false, false, true)
  const FL_DATA: Flags := Flags(false, false, false, true, true)
  const FL_FIN_ACK: Flags := Flags(true, false, false, false, true)

  /** The option our SYNs carry: kind 2, length 4, 1460. */
  const MSS_OPTION: seq<Byte> := [2, 4, 5, 180]

  /** A TCP segment, field by field; `opts` are the raw bytes between the header and the data. */
  datatype Segment = Segment(sport: U16, dport: U16, seqno: U32, ackno: U32, fl: Flags,
                             wnd: U16, opts: seq<Byte>, data: seq<Byte>)

  /** What the link answers to one transmission attempt (MN_SEND_*). */
  datatype Outcome = Failed | Ok | Pending

  /** The link's answers, attempt by attempt: an arbitrary function. */
  type Link = nat -> Outcome

  datatype SockRecord = Sock(
    state: State, eof: bool, reset: bool, timeout: bool, refused: bool,
    remoteIp: Addr, remotePort: U16, localPort: U16,
    iss: U32, sndUna: U32, sndNxt: U32, irs: U32, rcvNxt: U32, advEdge: U32,
    sndWnd: U16, peerMss: U16, sndLen: U16, inflight: U16, cwnd: U16,
    finQueued: bool, finSent: bool, rcvCount: U16,
    ackPending: bool, synPending: bool, txPending: bool,
    sentAt: U16, rto: U16, timewaitAt: U16, retries: Byte,
    acc: seq<Byte>, got: seq<Byte>, rcvAbs: nat, edgeAbs: nat)

  /** A socket after an operation, the segments the link accepted meanwhile, and the
      number of the link's next transmission attempt. */
  datatype Step = Step(t: Sock, sent: seq<Segment>, calls: nat)

  predicate Live(t: SockRecord) { t.state != Closed && t.state != Listen }

  /** Past the handshake. */
  predicate Synced(t: Sock) { Live(t) && t.state != SynSent && t.state != SynRcvd }

  /** The states that take data from the peer. */
  predicate Receiving(t: Sock) {
    t.state == Established || t.state == FinWait1 || t.state == FinWait2
  }

  /** The retransmission timeout after n expiries: doubled each time, up to RTO_MAX. */
  function Backoff(n: nat): (b: U16)
    ensures b <= RTO_MAX
  {
    if n == 0 then RTO_INITIAL else if n == 1 then 100 else if n == 2 then 200 else RTO_MAX
  }

  /** The ring bounds, the timer's backoff, and what keeps every segment inside the transmit buffer. */
  predicate Wf(t: SockRecord) {
    && t.inflight <= t.sndLen <= SNDBUF && t.sndLen <= |t.acc|
    && t.rcvCount <= RCVBUF && t.rcvCount <= |t.got|
    && t.peerMss <= MSS
    && (t.peerMss == 0 ==> t.cwnd == 0)
    && t.rto == Backoff(t.retries)
    && (Live(t) ==> t.retries <= MAX_RETRIES)
  }

  type Sock = t: SockRecord | Wf(t) witness FRESH

  function Retired(t: Sock): nat
  {
    |t.acc| - t.sndLen
  }

  /** The bytes in the send ring, oldest first. */
  function SendQueue(t: Sock): seq<Byte>
  {
    t.acc[|t.acc| - t.sndLen..]
  }

  /** The bytes in the receive ring, oldest first. */
  function RecvQueue(t: Sock): seq<Byte>
  {
    t.got[|t.got| - t.rcvCount..]
  }

  /** The bytes the application has already drained. */
  function Drained(t: Sock): seq<Byte>
  {
    t.got[..|t.got| - t.rcvCount]
  }

  function RcvFree(t: Sock): U16
  {
    RCVBUF - t.rcvCount
  }

  function AdvWindow(t: Sock): U16
  {
    if RcvFree(t) > WINDOW_CAP then WINDOW_CAP else RcvFree(t)
  }

  // ----- emitting -----

  /** The segment `emit` builds: `len` bytes of the send ring from `off` past its head. */
  function SegmentOf(t: Sock, fl: Flags, q: U32, off: nat, len: nat, withMss: bool): Segment
    requires off + len <= t.sndLen
  {
    Segment(t.localPort, t.remotePort, q, if fl.ack then t.rcvNxt else 0, fl, AdvWindow(t),
            if withMss then MSS_OPTION else [], SendQueue(t)[off..off + len])
  }

  /** The advertised edge moves as soon as a segment carrying ACK is built, whatever the
      link says then; a pending next hop means nothing was built. */
  predicate Advertises(fl: Flags, r: Outcome) { fl.ack && r != Pending }

  function AfterEmit(t: Sock, fl: Flags, r: Outcome): Sock {
    var edge := if Advertises(fl, r) then Wrap(t.rcvNxt + AdvWindow(t)) else t.advEdge;
    var edgeAbs := if Advertises(fl, r) then t.rcvAbs + AdvWindow(t) else t.edgeAbs;
    t.(advEdge := edge, edgeAbs := edgeAbs)
  }

  /** One transmission attempt, answered by the link with `link(k)`. */
  function Emit(t: Sock, fl: Flags, q: U32, off: nat, len: nat, withMss: bool, link: Link, k: nat): (r: Step)
    requires off + len <= t.sndLen
  {
    Step(AfterEmit(t, fl, link(k)),
         if link(k) == Ok then [SegmentOf(t, fl, q, off, len, withMss)] else [],
         k + 1)
  }

  // ----- calls of the application -----

  function ResetCounters(t: Sock): Sock {
    t.(eof := false, reset := false, timeout := false, refused := false,
       sndLen := 0, inflight := 0, cwnd := 0, rcvCount := 0,
       finQueued := false, finSent := false,
       ackPending := false, synPending := false, txPending := false,
       advEdge := 0, sndWnd := 0, peerMss := 536, rto := RTO_INITIAL, retries := 0,
       acc := [], got := [], rcvAbs := 0, edgeAbs := 0)
  }

  /** A socket after mn_tcp_init. */
  const FRESH: SockRecord :=
    Sock(Closed, false, false, false, false, [0, 0, 0, 0], 0, 0, 0, 0, 0, 0, 0, 0, 0, 536, 0, 0, 0,
         false, false, 0, false, false, false, 0, RTO_INITIAL, 0, 0, [], [], 0, 0)

  function SynDue(t: Sock, due: bool): Sock { t.(synPending := due) }

  /** A socket that is about to send its first SYN. */
  function Connecting(t: Sock, ip: Addr, port: U16, localPort: U16, iss: U32, now: U16): Sock {
    ResetCounters(t.(remoteIp := ip, remotePort := port, localPort := localPort,
                     iss := iss, sndUna := iss, sndNxt := Wrap(iss + 1), rcvNxt := 0))
    .(state := SynSent, sentAt := now)
  }

  function Connect(t: Sock, ip: Addr, port: U16, localPort: U16, iss: U32, now: U16, link: Link, k: nat): Step {
    if t.state != Closed then Step(t, [], k)
    else
      var e := Emit(Connecting(t, ip, port, localPort, iss, now), FL_SYN, iss, 0, 0, true, link, k);
      Step(SynDue(e.t, link(k) != Ok), e.sent, e.calls)
  }

  function ListenOn(t: Sock, port: U16): Sock
  {
    if t.state != Closed || port == 0 then t
    else ResetCounters(t.(localPort := port, remotePort := 0)).(state := Listen)
  }

  predicate CanSend(t: Sock) { (t.state == Established || t.state == CloseWait) && !t.finQueued }

  /** How many of `len` offered bytes mn_tcp_send accepts. */
  function Accepts(t: Sock, len: nat): (n: nat)
    ensures n <= len && t.sndLen + n <= SNDBUF
  {
    if CanSend(t) then Min(len, SNDBUF - t.sndLen) else 0
  }

  function Enqueue(t: Sock, data: seq<Byte>): Sock
    requires t.sndLen + |data| <= SNDBUF
  {
    t.(sndLen := t.sndLen + |data|, acc := t.acc + data, txPending := true)
  }

  function SendBytes(t: Sock, data: seq<Byte>): Sock {
    var n := Accepts(t, |data|);
    if n == 0 then t else Enqueue(t, data[..n])
  }

  function Drain(t: Sock, n: nat): Sock
    requires n <= t.rcvCount
  {
    t.(rcvCount := t.rcvCount - n)
  }

  function WantAck(t: Sock): Sock { t.(ackPending := true) }

  /** The right edge has moved far enough to tell the peer, or the window had closed. */
  predicate EdgeMoved(t: Sock) {
    Wrap(Wrap(t.rcvNxt + AdvWindow(t)) - t.advEdge) >= WINUPDATE_GROW || t.advEdge == t.rcvNxt
  }

  function AfterRecv(t: Sock, n: nat): Sock
    requires n <= t.rcvCount
  {
    var t1 := Drain(t, n);
    if n > 0 && Receiving(t) && EdgeMoved(t1) then WantAck(t1) else t1
  }

  /** What mn_tcp_recv hands over, given room for `cap` bytes. */
  function Received(t: Sock, cap: nat): seq<Byte>
  {
    RecvQueue(t)[..Min(cap, t.rcvCount)]
  }

  function RecvBytes(t: Sock, cap: nat): Sock
  {
    AfterRecv(t, Min(cap, t.rcvCount))
  }

  function QueueFin(t: Sock): Sock { t.(finQueued := true, txPending := true) }

  function ToClosed(t: Sock): Sock { t.(state := Closed) }

  function CloseDown(t: Sock): Sock
  {
    match t.state
    case Established | CloseWait => QueueFin(t)
    case SynSent | Listen | SynRcvd => ToClosed(t)
    case _ => t
  }

  /** A socket after mn_tcp_abort: the send side is dropped, the receive ring stays readable. */
  function Cleared(t: Sock): Sock {
    t.(state := Closed, sndLen := 0, inflight := 0, finQueued := false, finSent := false,
       ackPending := false, synPending := false, txPending := false)
  }

  function Abort(t: Sock, link: Link, k: nat): Step
  {
    var e := if t.state != Closed && t.state != TimeWait && t.state != Listen
             then Emit(t, FL_RST_ACK, t.sndNxt, 0, 0, false, link, k)
             else Step(t, [], k);
    Step(Cleared(e.t), e.sent, e.calls)
  }

  // ----- segments -----

  /** An acknowledgement that is neither old nor beyond what was sent. */
  predicate AckNew(t: Sock, ack: U32) { !SeqLeq(ack, t.sndUna) && !SeqLt(t.sndNxt, ack) }

  /** How many bytes of the send ring a new acknowledgement retires: our FIN is not one of them. */
  function Acked(t: Sock, ack: U32): (n: nat)
    ensures n <= t.inflight
  {
    var a := Wrap16(Wrap(ack - t.sndUna));
    Min(if t.finSent && ack == t.sndNxt then Wrap16(a - 1) else a, t.inflight)
  }

  /** One more segment's worth per acknowledgement, up to CWND_MAX segments. */
  function GrownCwnd(t: Sock): (c: U16)
    ensures t.peerMss == 0 ==> c == 0
  {
    if t.cwnd < Wrap16(t.peerMss * CWND_MAX) then Wrap16(t.cwnd + t.peerMss) else t.cwnd
  }

  /** Retires `n` bytes and restarts the timer. */
  function Retire(t: Sock, n: nat, ack: U32, now: U16): Sock
    requires n <= t.inflight
  {
    t.(sndLen := t.sndLen - n, inflight := t.inflight - n, sndUna := ack,
       retries := 0, rto := RTO_INITIAL, sentAt := now, cwnd := GrownCwnd(t),
       txPending := t.txPending || t.sndLen > t.inflight)
  }

  /** The peer acknowledged up to `ack`: retire sent data. */
  function HandleAck(t: Sock, ack: U32, now: U16): Sock {
    if AckNew(t, ack) then Retire(t, Acked(t, ack), ack, now) else t
  }

  /** The option loop of take_mss, from option byte `o` on. */
  function ScanMss(opts: seq<Byte>, o: nat, mss: U16): U16
    decreases |opts| - o
  {
    if o + 1 >= |opts| || opts[o] == 0 then mss
    else if opts[o] == 1 then ScanMss(opts, o + 1, mss)
    else
      var mss' := if opts[o] == 2 && opts[o + 1] == 4 && o + 3 < |opts|
                  then Get16(opts[o + 2], opts[o + 3]) else mss;
      if opts[o + 1] < 2 then mss' else ScanMss(opts, o + opts[o + 1], mss')
  }

  function TakeMss(opts: seq<Byte>, mss: U16): U16 {
    Min(ScanMss(opts, 0, mss), MSS)
  }

  /** A listener that has taken a SYN and is about to answer it. */
  function Opening(t: Sock, src: Addr, s: Segment, iss: U32, now: U16): Sock {
    ResetCounters(t.(remoteIp := src, remotePort := s.sport))
    .(irs := s.seqno, rcvNxt := Wrap(s.seqno + 1), rcvAbs := 1,
      iss := iss, sndUna := iss, sndNxt := Wrap(iss + 1), sndWnd := s.wnd,
      peerMss := TakeMss(s.opts, 536), state := SynRcvd, sentAt := now)
  }

  function PassiveOpen(t: Sock, src: Addr, s: Segment, iss: U32, now: U16, link: Link, k: nat): Step {
    var e := Emit(Opening(t, src, s, iss, now), FL_SYN_ACK, iss, 0, 0, true, link, k);
    Step(SynDue(e.t, link(k) != Ok), e.sent, e.calls)
  }

  /** Back to waiting for a SYN. */
  function Relisten(t: Sock): Sock {
    t.(state := Listen, eof := false, reset := false, timeout := false, refused := false)
  }

  function Refused(t: Sock): Sock { t.(refused := true, reset := true, state := Closed) }

  function Reset(t: Sock): Sock { t.(reset := true, state := Closed) }

  predicate RstInWindow(t: Sock, s: Segment) {
    !SeqLt(s.seqno, t.rcvNxt) && !SeqLeq(Wrap(t.rcvNxt + AdvWindow(t)), s.seqno)
  }

  function RstInput(t: Sock, s: Segment): Sock {
    if t.state == SynSent then
      if s.fl.ack && s.ackno == t.sndNxt then Refused(t) else t
    else if t.state == SynRcvd then Relisten(t)
    else if RstInWindow(t, s) then Reset(t)
    else t
  }

  /** A connect is answered. */
  function SynAcked(t: Sock, s: Segment): Sock {
    var mss := TakeMss(s.opts, t.peerMss);
    t.(irs := s.seqno, rcvNxt := Wrap(s.seqno + 1), rcvAbs := 1, sndUna := s.ackno, sndWnd := s.wnd,
       peerMss := mss, state := Established, cwnd := Wrap16(mss * 2),
       retries := 0, rto := RTO_INITIAL, ackPending := true)
  }

  function SynSentInput(t: Sock, s: Segment): Sock
  {
    if !s.fl.syn || !s.fl.ack || s.ackno != t.sndNxt then t else SynAcked(t, s)
  }

  /** The listener's handshake completes. */
  function Establish(t: Sock, s: Segment): Sock
  {
    t.(sndUna := s.ackno, state := Established, cwnd := Wrap16(t.peerMss * 2), retries := 0, rto := RTO_INITIAL)
  }

  /** How much of an in-order payload is put in the ring. */
  function Takes(t: Sock, len: nat): (n: nat)
    ensures n <= len && t.rcvCount + n <= RCVBUF
  {
    if Receiving(t) then Min(len, RcvFree(t)) else 0
  }

  function PutData(t: Sock, data: seq<Byte>): Sock
    requires t.rcvCount + |data| <= RCVBUF
  {
    t.(rcvCount := t.rcvCount + |data|, got := t.got + data,
       rcvNxt := Wrap(t.rcvNxt + |data|), rcvAbs := t.rcvAbs + |data|, ackPending := true)
  }

  function TakeData(t: Sock, data: seq<Byte>): Sock {
    if data == [] then t else PutData(t, data[..Takes(t, |data|)])
  }

  /** A FIN is acted on unless the ring cut the data before it short. */
  predicate FinReached(t: Sock, s: Segment)
  {
    s.fl.fin && (Receiving(t) ==> Takes(t, |s.data|) == |s.data|)
  }

  function AfterPeerFin(s: State): State {
    match s
    case Established => CloseWait
    case FinWait1 => Closing
    case FinWait2 => TimeWait
    case _ => s
  }

  function AfterOurFinAcked(s: State): State {
    match s
    case FinWait1 => FinWait2
    case Closing => TimeWait
    case LastAck => Closed
    case _ => s
  }

  function TakeFin(t: Sock): Sock
  {
    t.(rcvNxt := Wrap(t.rcvNxt + 1), rcvAbs := t.rcvAbs + 1, eof := true, ackPending := true,
       state := AfterPeerFin(t.state))
  }

  function OurFinAcked(t: Sock): Sock
  {
    if t.finSent && t.sndUna == t.sndNxt then
      t.(state := AfterOurFinAcked(t.state))
    else t
  }

  function WithWindow(t: Sock, wnd: U16): Sock { t.(sndWnd := wnd) }

  function InOrder(t: Sock, s: Segment, now: U16): Sock
  {
    var t1 := WithWindow(HandleAck(t, s.ackno, now), s.wnd);
    var t2 := TakeData(t1, s.data);
    var t3 := if FinReached(t1, s) then TakeFin(t2) else t2;
    OurFinAcked(t3)
  }

  function SyncedInput(t: Sock, s: Segment, now: U16): Sock
  {
    if !s.fl.ack then t
    else if s.seqno != t.rcvNxt then
      HandleAck(if s.data != [] || s.fl.fin then WantAck(t) else t, s.ackno, now)
    else InOrder(t, s, now)
  }

  function SynRcvdInput(t: Sock, s: Segment, now: U16): Sock
  {
    if s.fl.syn then
      if Wrap(s.seqno + 1) == t.rcvNxt then SynDue(t, true) else t
    else if !s.fl.ack || s.ackno != t.sndNxt || s.seqno != t.rcvNxt then t
    else SyncedInput(Establish(t, s), s, now)
  }

  /** segment_input: one segment for the socket that owns it. */
  function SegmentInput(t: Sock, s: Segment, now: U16): Sock
  {
    if s.fl.rst then RstInput(t, s)
    else if t.state == SynSent then SynSentInput(t, s)
    else if t.state == SynRcvd then SynRcvdInput(t, s, now)
    else SyncedInput(t, s, now)
  }

  /** The socket owns the segment's four-tuple. */
  predicate Owns(t: Sock, src: Addr, s: Segment) {
    Live(t) && t.localPort == s.dport && t.remotePort == s.sport && t.remoteIp == src
  }

  predicate BareSyn(s: Segment) { s.fl.syn && !s.fl.ack && !s.fl.rst }

  /** The socket would take this SYN as a listener. */
  predicate Listens(t: Sock, s: Segment) { t.state == Listen && t.localPort == s.dport }

  /** mn_tcp_input as it looks to a set of one socket. */
  function Arrive(t: Sock, src: Addr, s: Segment, iss: U32, now: U16, link: Link, k: nat): Step
  {
    if Owns(t, src, s) then Step(SegmentInput(t, s, now), [], k)
    else if BareSyn(s) && Listens(t, s) then PassiveOpen(t, src, s, iss, now, link, k)
    else Step(t, [], k)
  }

  // ----- the poll -----

  function DoubleRto(t: Sock): U16
  {
    if t.rto < RTO_MAX then t.rto * 2 else t.rto
  }

  predicate TimerExpired(t: Sock, now: U16) { Wrap16(now - t.sentAt) >= t.rto }

  /** The last retry of a connect, or of a synchronized socket, went unanswered. */
  function TimedOut(t: Sock): Sock
    requires t.retries == MAX_RETRIES
  {
    t.(timeout := true, state := Closed, retries := MAX_RETRIES + 1)
  }

  /** The last retry of a listener went unanswered. */
  function Forgotten(t: Sock): Sock
    requires t.retries == MAX_RETRIES
  {
    t.(state := Listen, eof := false, reset := false, timeout := false, refused := false, retries := MAX_RETRIES + 1)
  }

  /** No answer to MAX_RETRIES resends: a listener waits again, a connect has timed out. */
  function GiveUp(t: Sock): Sock
    requires t.retries == MAX_RETRIES
  {
    if t.state == SynRcvd then Forgotten(t) else TimedOut(t)
  }

  /** One more retry at the doubled timeout. */
  function CountRetry(t: Sock): Sock
    requires t.retries < MAX_RETRIES
  {
    t.(retries := t.retries + 1, rto := DoubleRto(t))
  }

  /** The retransmission timer starts again. */
  function Restart(t: Sock, now: U16): Sock { t.(sentAt := now) }

  function ResendSyn(t: Sock, now: U16, link: Link, k: nat): Step {
    var fl := if t.state == SynSent then FL_SYN else FL_SYN_ACK;
    var e := Emit(Restart(t, now), fl, t.iss, 0, 0, true, link, k);
    Step(SynDue(e.t, link(k) != Ok), e.sent, e.calls)
  }

  function PollHandshake(t: Sock, now: U16, link: Link, k: nat): Step
    requires Live(t)
  {
    if t.synPending then ResendSyn(t, now, link, k)
    else if !TimerExpired(t, now) then Step(t, [], k)
    else if t.retries == MAX_RETRIES then Step(GiveUp(t), [], k)
    else ResendSyn(CountRetry(t), now, link, k)
  }

  function WaitFrom(t: Sock, now: U16): Sock { t.(timewaitAt := now) }

  function AckInTimeWait(t: Sock, now: U16, link: Link, k: nat): Step {
    var e := Emit(AckDone(t), FL_ACK, t.sndNxt, 0, 0, false, link, k);
    Step(WaitFrom(e.t, now), e.sent, e.calls)
  }

  function PollTimeWait(t: Sock, now: U16, link: Link, k: nat): Step {
    var e := if t.ackPending then AckInTimeWait(t, now, link, k) else Step(t, [], k);
    if Wrap16(now - e.t.timewaitAt) >= TIME_WAIT_TICKS then Step(ToClosed(e.t), e.sent, e.calls) else e
  }

  /** The congestion window back to one segment. */
  function OneSegment(t: Sock): Sock { t.(cwnd := t.peerMss) }

  /** The timer fired: resend the oldest segment only, or the FIN; give up after MAX_RETRIES. */
  function Retransmit(t: Sock, now: U16, link: Link, k: nat): Step
    requires Synced(t)
  {
    if t.retries == MAX_RETRIES then Step(GiveUp(t), [], k)
    else
      var t1 := OneSegment(Restart(CountRetry(t), now));
      if t.inflight > 0
      then Emit(t1, FL_DATA, t.sndUna, 0, Min(t.inflight, t.peerMss), false, link, k)
      else Emit(t1, FL_FIN_ACK, Wrap(t.sndNxt - 1), 0, 0, false, link, k)
  }

  /** The state of the send loop: the socket, what went out, and the last answer. */
  datatype Burst = Burst(t: Sock, sent: seq<Segment>, calls: nat, last: Outcome)

  /** The size of the next new segment. */
  function NextSize(t: Sock, limit: U16): (n: nat)
    requires t.inflight < t.sndLen && t.inflight < limit && t.peerMss > 0
    ensures 0 < n <= t.peerMss && t.inflight + n <= t.sndLen && t.inflight + n <= limit
  {
    Min(Min(t.sndLen - t.inflight, t.peerMss), limit - t.inflight)
  }

  /** A new segment of `n` bytes went out. */
  function AfterNew(t: Sock, n: nat, now: U16): (t': Sock)
    requires t.inflight + n <= t.sndLen
  {
    var sentAt := if t.inflight == 0 then now else t.sentAt;
    t.(sentAt := sentAt, inflight := t.inflight + n, sndNxt := Wrap(t.sndNxt + n), ackPending := false)
  }

  /** The loop has something left to send. */
  predicate MayBurst(t: Sock, limit: U16) { t.inflight < t.sndLen && t.inflight < limit }

  /** The next new segment is offered to the link. */
  function OfferNew(t: Sock, limit: U16, link: Link, k: nat): Step
    requires MayBurst(t, limit) && t.peerMss > 0
  {
    Emit(t, FL_DATA, t.sndNxt, t.inflight, NextSize(t, limit), false, link, k)
  }

  function SendLoop(t: Sock, limit: U16, now: U16, link: Link, k: nat): Burst
    requires t.peerMss == 0 ==> limit == 0
    decreases t.sndLen - t.inflight
  {
    if !MayBurst(t, limit) then Burst(t, [], k, Ok)
    else
      var e := OfferNew(t, limit, link, k);
      if link(k) == Ok then
        var rest := SendLoop(AfterNew(e.t, NextSize(t, limit), now), limit, now, link, k + 1);
        Burst(rest.t, e.sent + rest.sent, rest.calls, rest.last)
      else Burst(e.t, [], k + 1, link(k))
  }

  function TxDue(t: Sock, due: bool): Sock { t.(txPending := due) }

  function SendQueued(t: Sock, now: U16, link: Link, k: nat): Step
  {
    var b := SendLoop(t, Min(t.sndWnd, t.cwnd), now, link, k);
    Step(TxDue(b.t, b.t.sndLen > b.t.inflight || b.last == Pending), b.sent, b.calls)
  }

  function AfterFin(t: Sock, now: U16): Sock
    requires Live(t)
  {
    var next := if t.state == CloseWait then LastAck else FinWait1;
    t.(finSent := true, sndNxt := Wrap(t.sndNxt + 1), sentAt := now, ackPending := false, state := next)
  }

  function SendFin(t: Sock, now: U16, link: Link, k: nat): Step
    requires Live(t)
  {
    if link(k) == Ok then EmitFin(t, now, link, k)
    else Emit(t, FL_FIN_ACK, t.sndNxt, 0, 0, false, link, k)
  }

  function EmitFin(t: Sock, now: U16, link: Link, k: nat): Step
    requires Live(t)
  {
    var e := Emit(t, FL_FIN_ACK, t.sndNxt, 0, 0, false, link, k);
    Step(AfterFin(e.t, now), e.sent, e.calls)
  }

  function AckDone(t: Sock): Sock { t.(ackPending := false) }

  function SendAck(t: Sock, link: Link, k: nat): Step {
    var e := Emit(t, FL_ACK, t.sndNxt, 0, 0, false, link, k);
    if link(k) == Pending then e else Step(AckDone(e.t), e.sent, e.calls)
  }

  predicate Outstanding(t: Sock) { t.inflight > 0 || t.finSent }

  function PollSynced(t: Sock, now: U16, link: Link, k: nat): (r: Step)
    requires Synced(t)
  {
    if Outstanding(t) && TimerExpired(t, now) then Retransmit(t, now, link, k)
    else if t.txPending && t.sndLen > t.inflight then SendQueued(t, now, link, k)
    else if t.finQueued && !t.finSent && t.inflight == 0 && t.sndLen == 0 then SendFin(t, now, link, k)
    else if t.ackPending then SendAck(t, link, k)
    else Step(t, [], k)
  }

  function PollOne(t: Sock, now: U16, link: Link, k: nat): Step
  {
    match t.state
    case Closed | Listen => Step(t, [], k)
    case SynSent | SynRcvd => PollHandshake(t, now, link, k)
    case TimeWait => PollTimeWait(t, now, link, k)
    case _ => PollSynced(t, now, link, k)
  }

  // ----- one step of one socket -----

  /** Everything that can happen to a socket.  The local port and the initial sequence
      number that the code derives from its clock and MAC address are arbitrary here. */
  datatype Event =
    | EConnect(ip: Addr, port: U16, localPort: U16, iss: U32, now: U16)
    | EListen(port: U16)
    | ESend(data: seq<Byte>)
    | ERecv(cap: nat)
    | EClose
    | EAbort
    | EArrive(src: Addr, seg: Segment, iss: U32, now: U16)
    | EPoll(now: U16)

  function Apply(t: Sock, e: Event, link: Link, k: nat): Step
  {
    match e
    case EConnect(ip, port, localPort, iss, now) => Connect(t, ip, port, localPort, iss, now, link, k)
    case EListen(port) => Step(ListenOn(t, port), [], k)
    case ESend(data) => Step(SendBytes(t, data), [], k)
    case ERecv(cap) => Step(RecvBytes(t, cap), [], k)
    case EClose => Step(CloseDown(t), [], k)
    case EAbort => Abort(t, link, k)
    case EArrive(src, seg, iss, now) => Arrive(t, src, seg, iss, now, link, k)
    case EPoll(now) => PollOne(t, now, link, k)
  }
}
