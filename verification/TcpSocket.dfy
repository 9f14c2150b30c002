/**
  The socket of src/net/mn_tcp.c over the shared pool: its two rings in external memory, its
  segments built in the transmit buffer, its loops.  The scalar fields of the C struct are
  kept as one value `t`; the functions of module Tcp say how each operation changes it, and
  every method here is proved to change it, the rings and the wire accordingly.
*/
module TcpSocket {
  import opened Words
  import opened Common
  import opened Xmem
  import opened Checksum
  import opened TcpCodec
  import opened NetLink
  import T = Tcp

  const SOCKET_XMEM: int := 7168

  class Socket {
    const pool: Pool
    const nif: Nif
    const xseg: U16
    const rcvbuf: U16
    const sndbuf: U16

    var t: T.Sock
    var sndHead: U16
    var rcvHead: U16

    function SndAt(): nat { Address(xseg, sndbuf) }

    function RcvAt(): nat { Address(xseg, rcvbuf) }

    /** The rings lie in the pool, one after the other, inside one 64 KB segment. */
    ghost predicate Placed() {
      && rcvbuf + T.RCVBUF == sndbuf && sndbuf + T.SNDBUF <= 0x1_0000
      && SndAt() + T.SNDBUF <= pool.mem.Length && RcvAt() + T.RCVBUF <= pool.mem.Length
      && pool.mem != nif.txf && nif.txf.Length == MAX_FRAME
    }

    /** The rings hold exactly the unacknowledged end of the accepted stream and the undrained
        end of the received one. */
    ghost predicate RingsHold()
      reads this, pool.mem
      requires Placed()
    {
      && sndHead < T.SNDBUF && rcvHead < T.RCVBUF
      && Queue(pool.mem, SndAt(), T.SNDBUF, sndHead, t.sndLen) == T.SendQueue(t)
      && Queue(pool.mem, RcvAt(), T.RCVBUF, rcvHead, t.rcvCount) == T.RecvQueue(t)
    }

    /** The representation invariant. */
    ghost predicate Valid()
      reads this, pool.mem
    {
      Placed() && RingsHold()
    }

    /** The rings hold the right bytes if the pool's memory is `m`. */
    ghost predicate HoldsOn(m: seq<Byte>)
      reads this
    {
      && Placed() && |m| == pool.mem.Length && sndHead < T.SNDBUF && rcvHead < T.RCVBUF
      && RingBytes(m, SndAt(), T.SNDBUF, sndHead, t.sndLen) == T.SendQueue(t)
      && RingBytes(m, RcvAt(), T.RCVBUF, rcvHead, t.rcvCount) == T.RecvQueue(t)
    }

    lemma ValidHolds()
      ensures Valid() <==> HoldsOn(pool.mem[..])
    {
    }

    /** Changes outside the socket's own stretch of the pool do not concern it. */
    lemma Elsewhere(m: seq<Byte>, m': seq<Byte>)
      requires HoldsOn(m) && |m'| == |m|
      requires forall i :: RcvAt() <= i < RcvAt() + SOCKET_XMEM ==> m'[i] == m[i]
      ensures HoldsOn(m')
    {
      Untouched(m, m', SndAt(), T.SNDBUF, sndHead, t.sndLen);
      Untouched(m, m', RcvAt(), T.RCVBUF, rcvHead, t.rcvCount);
    }

    /** mn_tcp_init for one socket: closed, with its rings at `base`. */
    constructor (pool: Pool, nif: Nif, seg: U16, base: U16)
      requires base + SOCKET_XMEM <= 0x1_0000 && Address(seg, base) + SOCKET_XMEM <= pool.mem.Length
      requires pool.mem != nif.txf && nif.txf.Length == MAX_FRAME
      ensures Valid() && t == T.FRESH
      ensures this.pool == pool && this.nif == nif && xseg == seg && rcvbuf == base
    {
      this.pool, this.nif := pool, nif;
      xseg, rcvbuf, sndbuf := seg, base, base + T.RCVBUF;
      t := T.FRESH;
      sndHead, rcvHead := 0, 0;
    }

    // ----- emitting -----

    /** The header and options of a segment, in the transmit buffer. */
    method BuildHeader(head: T.Segment)
      requires nif.txf.Length == MAX_FRAME && Encodable(head) && head.data == []
      modifies nif.txf
      ensures nif.txf[TX_OFFSET..TX_OFFSET + HDR_LEN + |head.opts|] == Header(head) + head.opts
    {
      var b := nif.txf;
      PutHeader(b, TX_OFFSET, head);
      ghost var h := b[TX_OFFSET..TX_OFFSET + HDR_LEN];
      hide Header, Encodable;
      PutBytes(b, TX_OFFSET + HDR_LEN, head.opts);
      assert b[TX_OFFSET..TX_OFFSET + HDR_LEN] == h;
      Joined(b[..], TX_OFFSET, h, head.opts);
    }

    /** Part of the send queue, where the ring has it. */
    lemma RingPart(off: nat, len: nat)
      requires Valid() && off + len <= t.sndLen
      ensures (sndHead + off) % T.SNDBUF == Slot(T.SNDBUF, sndHead, off)
      ensures RingBytes(pool.mem[..], SndAt(), T.SNDBUF, Slot(T.SNDBUF, sndHead, off), len) == T.SendQueue(t)[off..off + len]
    {
      Part(pool.mem[..], SndAt(), T.SNDBUF, sndHead, t.sndLen, off, len);
    }

    /** The bytes of the send ring from `off` past its head, at `at` in the transmit buffer. */
    method BuildData(at: nat, off: U16, len: U16)
      requires Valid() && off + len <= t.sndLen && at + len <= MAX_FRAME
      modifies nif.txf
      ensures nif.txf[at..at + len] == T.SendQueue(t)[off..off + len]
      ensures nif.txf[..at] == old(nif.txf[..at])
    {
      RingPart(off, len);
      hide T.SendQueue, RingBytes;
      if len > 0 {
        RingRead(pool, nif.txf, at, xseg, sndbuf, T.SNDBUF, (sndHead + off) % T.SNDBUF, len);
      }
    }

    /** Writes one segment, checksum zero, in the transmit buffer. */
    method Build(head: T.Segment, off: U16, len: U16, ghost s: T.Segment) returns (n: U16)
      requires Valid() && off + len <= t.sndLen && len <= T.MSS
      requires Encodable(s) && head == s.(data := []) && s.data == T.SendQueue(t)[off..off + len]
      requires |s.opts| <= 4
      modifies nif.txf
      ensures HDR_LEN <= n && TX_OFFSET + n <= nif.txf.Length
      ensures n == HDR_LEN + |s.opts| + |s.data| && nif.txf[TX_OFFSET..TX_OFFSET + n] == Blank(s)
    {
      HeaderOnly(s, head);
      TxfLength();
      hide Valid, Placed, RingsHold, Header, Blank, Encodable, T.SendQueue, SndAt, RcvAt;
      BuildHeader(head);
      n := HDR_LEN + |head.opts| + len;
      ghost var h := nif.txf[TX_OFFSET..TX_OFFSET + HDR_LEN + |head.opts|];
      BuildData(TX_OFFSET + HDR_LEN + |head.opts|, off, len);
      Joined(nif.txf[..], TX_OFFSET, h, s.data);
    }

    lemma TxfLength()
      requires Valid()
      ensures nif.txf.Length == MAX_FRAME && pool.mem != nif.txf
    {
    }

    static lemma Joined(b: seq<Byte>, at: nat, h: seq<Byte>, d: seq<Byte>)
      requires at + |h| + |d| <= |b| && b[at..at + |h|] == h && b[at + |h|..at + |h| + |d|] == d
      ensures b[at..at + |h| + |d|] == h + d
    {
    }

    /** The socket, the wire and the link's clock are what a step of module Tcp says. */
    twostate predicate Performed(step: T.Step)
      reads this, nif
    {
      && t == step.t && nif.calls == step.calls && nif.ip == old(nif.ip)
      && nif.wire == old(nif.wire) + Datagrams(nif.ip, t.remoteIp, step.sent)
    }

    static lemma Sendable(u: T.Sock, fl: T.Flags, q: U32, off: nat, len: nat, withMss: bool)
      requires off + len <= u.sndLen && len <= T.MSS && (withMss ==> len == 0)
      ensures var s := T.SegmentOf(u, fl, q, off, len, withMss);
              Encodable(s) && |s.opts| <= 4 && |s.data| == len && s.data == T.SendQueue(u)[off..off + len]
    {
    }

    /** The segment about to be sent, without its data. */
    method Head(fl: T.Flags, q: U32, off: U16, len: U16, withMss: bool) returns (head: T.Segment)
      requires off + len <= t.sndLen
      ensures head == T.SegmentOf(t, fl, q, off, len, withMss).(data := [])
    {
      var opts := if withMss then T.MSS_OPTION else [];
      head := T.Segment(t.localPort, t.remotePort, q, if fl.ack then t.rcvNxt else 0, fl, T.AdvWindow(t), opts, []);
    }

    /** Writes a whole segment in the transmit buffer. */
    method Compose(fl: T.Flags, q: U32, off: U16, len: U16, withMss: bool) returns (n: U16)
      requires Valid() && off + len <= t.sndLen && len <= T.MSS && (withMss ==> len == 0)
      modifies nif.txf
      ensures TX_OFFSET + n <= nif.txf.Length
      ensures nif.txf[TX_OFFSET..TX_OFFSET + n] == Bytes(nif.ip, t.remoteIp, T.SegmentOf(t, fl, q, off, len, withMss))
    {
      hide *;
      TxfLength();
      ghost var s := T.SegmentOf(t, fl, q, off, len, withMss);
      Sendable(t, fl, q, off, len, withMss);
      BytesSealed(nif.ip, t.remoteIp, s);
      var head := Head(fl, q, off, len, withMss);
      n := Build(head, off, len, s);
      Seal(nif.txf, nif.ip, t.remoteIp, n);
    }

    /** The next hop is known: the segment is built and offered. */
    method Offer(fl: T.Flags, q: U32, off: U16, len: U16, withMss: bool) returns (r: T.Outcome)
      requires Valid() && off + len <= t.sndLen && len <= T.MSS && (withMss ==> len == 0)
      requires nif.answers(nif.calls) != T.Pending
      modifies nif`calls, nif`wire, nif.txf
      ensures r == nif.answers(old(nif.calls)) && nif.calls == old(nif.calls) + 1
      ensures nif.wire == old(nif.wire) +
                if r == T.Ok then Datagrams(nif.ip, t.remoteIp, [T.SegmentOf(t, fl, q, off, len, withMss)]) else []
    {
      hide Valid, Bytes, T.SegmentOf;
      var n := Compose(fl, q, off, len, withMss);
      r := nif.TxSend(t.remoteIp, n);
    }

    static lemma Emitted(u: T.Sock, fl: T.Flags)
      ensures T.AfterEmit(u, fl, T.Failed) == T.AfterEmit(u, fl, T.Ok) && T.AfterEmit(u, fl, T.Pending) == u
      ensures forall r :: T.AfterEmit(u, fl, r).remoteIp == u.remoteIp
    {
      EmittedPending(u, fl);
      EmittedFailed(u, fl);
      EmittedIp(u, fl);
      hide T.AfterEmit;
      forall r ensures T.AfterEmit(u, fl, r).remoteIp == u.remoteIp {
        assert r == T.Ok || r == T.Failed || r == T.Pending;
      }
    }

    static lemma EmittedPending(u: T.Sock, fl: T.Flags)
      ensures T.AfterEmit(u, fl, T.Pending) == u
    {
      hide Wrap, T.AdvWindow;
    }

    static lemma EmittedFailed(u: T.Sock, fl: T.Flags)
      ensures T.AfterEmit(u, fl, T.Failed) == T.AfterEmit(u, fl, T.Ok)
    {
      hide Wrap, T.AdvWindow;
    }

    static lemma EmittedIp(u: T.Sock, fl: T.Flags)
      ensures T.AfterEmit(u, fl, T.Ok).remoteIp == u.remoteIp
    {
      hide Wrap, T.AdvWindow;
    }

    /** Replaces the scalar fields, leaving the rings alone. */
    method Become(u: T.Sock)
      requires Valid() && SameRings(t, u)
      modifies this`t
      ensures Valid() && t == u
    {
      t := u;
    }

    /** Builds one segment and offers it to the link. */
    method Emit(fl: T.Flags, q: U32, off: U16, len: U16, withMss: bool) returns (r: T.Outcome)
      requires Valid() && off + len <= t.sndLen && len <= T.MSS && (withMss ==> len == 0)
      modifies this`t, nif`calls, nif`wire, nif.txf
      ensures Valid() && r == nif.answers(old(nif.calls))
      ensures Performed(old(T.Emit(t, fl, q, off, len, withMss, nif.answers, nif.calls)))
    {
      TxfLength();
      Emitted(t, fl);
      ghost var frame := T.AfterEmit(t, fl, T.Ok);
      assert SameRings(t, frame);
      hide Valid, SameRings, T.AfterEmit, T.SegmentOf, Datagrams;
      var ok := nif.TxBegin();
      if ok {
        r := Offer(fl, q, off, len, withMss);
        Become(T.AfterEmit(t, fl, r));
      } else {
        r := T.Pending;
      }
    }

    // ----- calls of the application -----

    /** Replaces the scalar fields by some that leave both rings empty. */
    method Restart(u: T.Sock)
      requires Valid() && u.sndLen == 0 && u.rcvCount == 0
      modifies this`t, this`sndHead, this`rcvHead
      ensures Valid() && t == u
    {
      InRings();
      Emptied(u, pool.mem[..]);
      t := u;
      sndHead, rcvHead := 0, 0;
      hide RingBytes, T.SendQueue, T.RecvQueue, T.Wf;
    }

    lemma Emptied(u: T.Sock, m: seq<Byte>)
      requires Placed() && u.sndLen == 0 && u.rcvCount == 0 && |m| == pool.mem.Length
      ensures RingBytes(m, SndAt(), T.SNDBUF, 0, 0) == T.SendQueue(u)
      ensures RingBytes(m, RcvAt(), T.RCVBUF, 0, 0) == T.RecvQueue(u)
    {
    }

    /** mn_tcp_connect; the port and the initial sequence number are the caller's. */
    method Connect(ip: Addr, port: U16, localPort: U16, iss: U32, now: U16) returns (ok: bool)
      requires Valid()
      modifies this`t, this`sndHead, this`rcvHead, nif`calls, nif`wire, nif.txf
      ensures Valid() && ok == old(t.state == T.Closed)
      ensures Performed(old(T.Connect(t, ip, port, localPort, iss, now, nif.answers, nif.calls)))
    {
      ok := t.state == T.Closed;
      if ok {
        Restart(T.Connecting(t, ip, port, localPort, iss, now));
        SynOut(T.FL_SYN);
      } else {
        NoDatagrams(nif.wire, nif.ip, t.remoteIp);
      }
      hide Valid, Datagrams, T.AfterEmit, T.SegmentOf, T.ResetCounters, T.SynDue;
    }

    /** Sends a SYN and remembers whether it is still due. */
    method SynOut(fl: T.Flags)
      requires Valid()
      modifies this`t, nif`calls, nif`wire, nif.txf
      ensures Valid()
      ensures var e := old(T.Emit(t, fl, t.iss, 0, 0, true, nif.answers, nif.calls));
              Performed(T.Step(T.SynDue(e.t, nif.answers(old(nif.calls)) != T.Ok), e.sent, e.calls))
    {
      hide Valid, SameRings, T.SynDue, T.AfterEmit, T.SegmentOf, Datagrams;
      var r := Emit(fl, t.iss, 0, 0, true);
      MarkKeeps(t, T.SegmentOf(t, fl, t.iss, 0, 0, true), r != T.Ok);
      SynDueIp(t, r != T.Ok);
      Become(T.SynDue(t, r != T.Ok));
    }

    /** mn_tcp_listen */
    method ListenOn(port: U16) returns (ok: bool)
      requires Valid()
      modifies this`t, this`sndHead, this`rcvHead
      ensures Valid() && t == T.ListenOn(old(t), port)
      ensures ok == (old(t.state) == T.Closed && port != 0)
    {
      ok := t.state == T.Closed && port != 0;
      if ok {
        var u := T.ListenOn(t, port);
        Restart(u);
      }
    }

    /** mn_tcp_send: what fits goes to the tail of the send ring. */
    method Send(data: seq<Byte>) returns (n: U16)
      requires Valid()
      modifies this`t, pool.mem
      ensures Valid() && t == T.SendBytes(old(t), data) && n == T.Accepts(old(t), |data|)
      ensures SameOutside(old(pool.mem[..]), pool.mem[..], SndAt(), T.SNDBUF)
    {
      n := T.Accepts(t, |data|);
      if n > 0 {
        ghost var m := pool.mem[..];
        var u := t;
        TailSlots();
        InRings();
        hide Valid, RingsHold, RingBytes, Queue, Written, SameOutside, T.Enqueue;
        RingWrite(pool, xseg, sndbuf, T.SNDBUF, (sndHead + t.sndLen) % T.SNDBUF, data[..n]);
        t := T.Enqueue(t, data[..n]);
        EnqueueHolds(m, u, data[..n]);
        OutsideOnly(m, pool.mem[..], SndAt(), T.SNDBUF, Slot(T.SNDBUF, sndHead, u.sndLen), data[..n]);
      }
    }

    /** The positions just past the two queues. */
    lemma TailSlots()
      requires Valid()
      ensures (sndHead + t.sndLen) % T.SNDBUF == Slot(T.SNDBUF, sndHead, t.sndLen)
      ensures (rcvHead + t.rcvCount) % T.RCVBUF == Slot(T.RCVBUF, rcvHead, t.rcvCount)
    {
    }

    /** mn_tcp_recv: hands over the front of the receive ring. */
    method Recv(out: array<Byte>, cap: U16) returns (n: U16)
      requires Valid() && cap <= out.Length && out != pool.mem
      modifies this`t, this`rcvHead, out
      ensures Valid() && t == T.RecvBytes(old(t), cap)
      ensures n <= out.Length && out[..n] == T.Received(old(t), cap)
    {
      n := Min(cap, t.rcvCount);
      FrontOfRing(n);
      if n > 0 {
        RingRead(pool, out, 0, xseg, rcvbuf, T.RCVBUF, rcvHead, n);
      }
      AfterRecv(n);
      hide RingBytes, T.AfterRecv;
    }

    lemma FrontOfRing(n: nat)
      requires Valid() && n <= t.rcvCount
      ensures RingBytes(pool.mem[..], RcvAt(), T.RCVBUF, rcvHead, n) == T.RecvQueue(t)[..n]
      ensures (rcvHead + n) % T.RCVBUF == Slot(T.RCVBUF, rcvHead, n)
      ensures RingBytes(pool.mem[..], RcvAt(), T.RCVBUF, Slot(T.RCVBUF, rcvHead, n), t.rcvCount - n) == T.RecvQueue(t)[n..]
    {
      Part(pool.mem[..], RcvAt(), T.RCVBUF, rcvHead, t.rcvCount, 0, n);
      Dropped(pool.mem[..], RcvAt(), T.RCVBUF, rcvHead, t.rcvCount, n);
    }

    method AfterRecv(n: U16)
      requires Valid() && n <= t.rcvCount
      modifies this`t, this`rcvHead
      ensures Valid() && t == T.AfterRecv(old(t), n)
    {
      hide Valid, SameRings, T.EdgeMoved, T.WantAck, T.Drain;
      var receiving := T.Receiving(t);
      Advance(n);
      if n > 0 && receiving && T.EdgeMoved(t) {
        MarkKeeps(t, T.SegmentOf(t, T.FL_ACK, 0, 0, 0, false), true);
        Become(T.WantAck(t));
      }
    }

    /** Drops `n` bytes from the front of the receive ring. */
    method Advance(n: U16)
      requires Valid() && n <= t.rcvCount
      modifies this`t, this`rcvHead
      ensures Valid() && t == T.Drain(old(t), n)
    {
      hide RingBytes, T.RecvQueue, T.SendQueue;
      FrontOfRing(n);
      DrainQueues(t, n);
      rcvHead := (rcvHead + n) % T.RCVBUF;
      t := T.Drain(t, n);
    }

    static lemma DrainQueues(u: T.Sock, n: nat)
      requires n <= u.rcvCount
      ensures T.RecvQueue(T.Drain(u, n)) == T.RecvQueue(u)[n..] && T.SendQueue(T.Drain(u, n)) == T.SendQueue(u)
    {
    }

    /** mn_tcp_close */
    method Close()
      requires Valid()
      modifies this`t
      ensures Valid() && t == T.CloseDown(old(t))
    {
      hide Valid, SameRings, T.Wf, T.QueueFin, T.ToClosed;
      CloseKeeps(t);
      if t.state == T.Established || t.state == T.CloseWait {
        Become(t.(finQueued := true, txPending := true));
      } else if t.state == T.SynSent || t.state == T.Listen || t.state == T.SynRcvd {
        Become(t.(state := T.Closed));
      }
    }

    static lemma CloseKeeps(u: T.Sock)
      ensures var v := u.(finQueued := true, txPending := true); T.Wf(v) && v == T.QueueFin(u) && SameRings(u, v)
      ensures var v := u.(state := T.Closed); T.Wf(v) && v == T.ToClosed(u) && SameRings(u, v)
    {
    }

    static predicate SameRings(u: T.Sock, v: T.Sock) {
      u.sndLen == v.sndLen && u.rcvCount == v.rcvCount && u.acc == v.acc && u.got == v.got
    }

    /** Appends a segment's payload to the receive ring, as much as fits. */
    method RingPut(data: seq<Byte>) returns (n: U16)
      requires Valid() && T.Receiving(t) && data != []
      modifies this`t, pool.mem
      ensures Valid() && n == T.Takes(old(t), |data|) && t == T.PutData(old(t), data[..n])
      ensures SameOutside(old(pool.mem[..]), pool.mem[..], RcvAt(), T.RCVBUF)
    {
      n := T.Takes(t, |data|);
      ghost var m := pool.mem[..];
      var u := t;
      TailSlots();
      InRings();
      hide Valid, RingsHold, RingBytes, Queue, Written, SameOutside, T.PutData;
      RingWrite(pool, xseg, rcvbuf, T.RCVBUF, (rcvHead + t.rcvCount) % T.RCVBUF, data[..n]);
      t := T.PutData(t, data[..n]);
      PutHolds(m, u, data[..n]);
      OutsideOnly(m, pool.mem[..], RcvAt(), T.RCVBUF, Slot(T.RCVBUF, rcvHead, u.rcvCount), data[..n]);
    }

    /** What both rings hold, on the pool as it is now. */
    lemma InRings()
      requires Valid()
      ensures Placed() && sndHead < T.SNDBUF && rcvHead < T.RCVBUF
      ensures RingBytes(pool.mem[..], SndAt(), T.SNDBUF, sndHead, t.sndLen) == T.SendQueue(t)
      ensures RingBytes(pool.mem[..], RcvAt(), T.RCVBUF, rcvHead, t.rcvCount) == T.RecvQueue(t)
    {
    }

    static lemma OutsideOnly(m: seq<Byte>, m': seq<Byte>, start: nat, size: nat, pos: nat, src: seq<Byte>)
      requires pos < size && |src| <= size && start + size <= |m| && Written(m, m', start, size, pos, src)
      ensures SameOutside(m, m', start, size)
    {
    }

    /** The rings after bytes have been written at the tail of the receive ring. */
    lemma PutHolds(m: seq<Byte>, u: T.Sock, data: seq<Byte>)
      requires Placed() && sndHead < T.SNDBUF && rcvHead < T.RCVBUF && |m| == pool.mem.Length
      requires RingBytes(m, SndAt(), T.SNDBUF, sndHead, u.sndLen) == T.SendQueue(u)
      requires RingBytes(m, RcvAt(), T.RCVBUF, rcvHead, u.rcvCount) == T.RecvQueue(u)
      requires u.rcvCount + |data| <= T.RCVBUF && t == T.PutData(u, data)
      requires Written(m, pool.mem[..], RcvAt(), T.RCVBUF, Slot(T.RCVBUF, rcvHead, u.rcvCount), data)
      ensures Valid()
    {
      hide RingBytes, Written, T.PutData, T.SendQueue, T.RecvQueue, Slot;
      QueuePut(u, data);
      Appended(m, pool.mem[..], RcvAt(), T.RCVBUF, rcvHead, u.rcvCount, data);
      OutsideOnly(m, pool.mem[..], RcvAt(), T.RCVBUF, Slot(T.RCVBUF, rcvHead, u.rcvCount), data);
      Untouched(m, pool.mem[..], SndAt(), T.SNDBUF, sndHead, u.sndLen);
    }

    static lemma QueuePut(u: T.Sock, data: seq<Byte>)
      requires u.rcvCount + |data| <= T.RCVBUF
      ensures var v := T.PutData(u, data);
              && v.rcvCount == u.rcvCount + |data| && v.sndLen == u.sndLen
              && T.RecvQueue(v) == T.RecvQueue(u) + data && T.SendQueue(v) == T.SendQueue(u)
    {
      hide Wrap;
    }

    static lemma QueueEnqueued(u: T.Sock, data: seq<Byte>)
      requires u.sndLen + |data| <= T.SNDBUF
      ensures var v := T.Enqueue(u, data);
              && v.sndLen == u.sndLen + |data| && v.rcvCount == u.rcvCount
              && T.SendQueue(v) == T.SendQueue(u) + data && T.RecvQueue(v) == T.RecvQueue(u)
    {
    }

    /** The rings after bytes have been written at the tail of the send ring. */
    lemma EnqueueHolds(m: seq<Byte>, u: T.Sock, data: seq<Byte>)
      requires Placed() && sndHead < T.SNDBUF && rcvHead < T.RCVBUF && |m| == pool.mem.Length
      requires RingBytes(m, SndAt(), T.SNDBUF, sndHead, u.sndLen) == T.SendQueue(u)
      requires RingBytes(m, RcvAt(), T.RCVBUF, rcvHead, u.rcvCount) == T.RecvQueue(u)
      requires u.sndLen + |data| <= T.SNDBUF && t == T.Enqueue(u, data)
      requires Written(m, pool.mem[..], SndAt(), T.SNDBUF, Slot(T.SNDBUF, sndHead, u.sndLen), data)
      ensures Valid()
    {
      hide RingBytes, Written, T.Enqueue, T.SendQueue, T.RecvQueue, Slot;
      QueueEnqueued(u, data);
      Appended(m, pool.mem[..], SndAt(), T.SNDBUF, sndHead, u.sndLen, data);
      OutsideOnly(m, pool.mem[..], SndAt(), T.SNDBUF, Slot(T.SNDBUF, sndHead, u.sndLen), data);
      Untouched(m, pool.mem[..], RcvAt(), T.RCVBUF, rcvHead, u.rcvCount);
    }

    /** The peer acknowledged up to `ack`: the head of the send ring moves over what is retired. */
    method HandleAck(ack: U32, now: U16)
      requires Valid()
      modifies this`t, this`sndHead
      ensures Valid() && t == T.HandleAck(old(t), ack, now)
    {
      if T.AckNew(t, ack) {
        var n := T.Acked(t, ack);
        FrontOfSendRing(n);
        ghost var q := T.SendQueue(t);
        sndHead := (sndHead + n) % T.SNDBUF;
        t := T.Retire(t, n, ack, now);
        assert T.SendQueue(t) == q[n..];
      }
      hide RingBytes, T.AckNew, T.Acked, T.GrownCwnd;
    }

    lemma FrontOfSendRing(n: nat)
      requires Valid() && n <= t.sndLen
      ensures (sndHead + n) % T.SNDBUF == Slot(T.SNDBUF, sndHead, n)
      ensures RingBytes(pool.mem[..], SndAt(), T.SNDBUF, Slot(T.SNDBUF, sndHead, n), t.sndLen - n) == T.SendQueue(t)[n..]
    {
      Dropped(pool.mem[..], SndAt(), T.SNDBUF, sndHead, t.sndLen, n);
    }

    /** mn_tcp_abort */
    method Abort()
      requires Valid()
      modifies this`t, this`sndHead, nif`calls, nif`wire, nif.txf
      ensures Valid() && Performed(old(T.Abort(t, nif.answers, nif.calls)))
    {
      if t.state != T.Closed && t.state != T.TimeWait && t.state != T.Listen {
        var r := Emit(T.FL_RST_ACK, t.sndNxt, 0, 0, false);
      } else {
        NoDatagrams(nif.wire, nif.ip, t.remoteIp);
      }
      Clear();
      hide Valid, Datagrams, T.AfterEmit, T.SegmentOf, T.Cleared;
    }

    method Clear()
      requires Valid()
      modifies this`t, this`sndHead
      ensures Valid() && t == T.Cleared(old(t)) && t.remoteIp == old(t.remoteIp)
    {
      sndHead := 0;
      t := T.Cleared(t);
      hide RingBytes;
    }

    // ----- segments -----

    /** The passive open: a SYN for this listener. */
    method PassiveOpen(src: Addr, s: T.Segment, iss: U32, now: U16)
      requires Valid()
      modifies this`t, this`sndHead, this`rcvHead, nif`calls, nif`wire, nif.txf
      ensures Valid() && Performed(old(T.PassiveOpen(t, src, s, iss, now, nif.answers, nif.calls)))
    {
      var mss := TakeMss(s.opts, 536);
      ghost var u := T.Opening(t, src, s, iss, now);
      Restart(T.ResetCounters(t.(remoteIp := src, remotePort := s.sport)));
      Restart(t.(irs := s.seqno, rcvNxt := Wrap(s.seqno + 1), rcvAbs := 1, iss := iss, sndUna := iss,
                 sndNxt := Wrap(iss + 1), sndWnd := s.wnd, peerMss := mss, state := T.SynRcvd, sentAt := now));
      assert t == u;
      SynOut(T.FL_SYN_ACK);
      hide Valid, Datagrams, T.AfterEmit, T.SegmentOf, T.ResetCounters, T.SynDue;
    }

    /** segment_input on an RST: refused, back to listening, or reset if it lies in the window. */
    method RstInput(s: T.Segment)
      requires Valid()
      modifies this`t
      ensures Valid() && t == T.RstInput(old(t), s)
    {
      hide Valid, SameRings, T.Wf, T.RstInWindow, T.Refused, T.Reset, T.Relisten;
      ResetKeeps(t);
      RelistenKeeps(t);
      if t.state == T.SynSent {
        if s.fl.ack && s.ackno == t.sndNxt {
          Become(t.(refused := true, reset := true, state := T.Closed));
        }
      } else if t.state == T.SynRcvd {
        Become(t.(state := T.Listen, eof := false, reset := false, timeout := false, refused := false));
      } else if T.RstInWindow(t, s) {
        Become(t.(reset := true, state := T.Closed));
      }
    }

    static lemma ResetKeeps(u: T.Sock)
      ensures var v := u.(refused := true, reset := true, state := T.Closed);
              T.Wf(v) && v == T.Refused(u) && SameRings(u, v)
      ensures var v := u.(reset := true, state := T.Closed); T.Wf(v) && v == T.Reset(u) && SameRings(u, v)
    {
    }

    static lemma RelistenKeeps(u: T.Sock)
      ensures var v := u.(state := T.Listen, eof := false, reset := false, timeout := false, refused := false);
              T.Wf(v) && v == T.Relisten(u) && SameRings(u, v)
    {
    }

    /** segment_input while connecting: the right SYN|ACK establishes the connection. */
    method SynSentInput(s: T.Segment)
      requires Valid()
      modifies this`t
      ensures Valid() && t == T.SynSentInput(old(t), s)
    {
      hide Valid, SameRings, T.Wf;
      if s.fl.syn && s.fl.ack && s.ackno == t.sndNxt {
        ghost var u := T.SynAcked(t, s);
        SynAckedKeeps(t, s);
        var mss := TakeMss(s.opts, t.peerMss);
        Become(t.(irs := s.seqno, rcvNxt := Wrap(s.seqno + 1), rcvAbs := 1, sndUna := s.ackno, sndWnd := s.wnd,
                  peerMss := mss, state := T.Established, cwnd := Wrap16(mss * 2),
                  retries := 0, rto := T.RTO_INITIAL, ackPending := true));
      }
    }

    static lemma SynAckedKeeps(u: T.Sock, s: T.Segment)
      ensures var v := T.SynAcked(u, s); T.Wf(v) && SameRings(u, v)
    {
      hide T.TakeMss, Wrap, Wrap16;
    }

    static lemma FinKeeps(u: T.Sock)
      ensures SameRings(u, T.TakeFin(u)) && SameRings(u, T.OurFinAcked(u))
    {
      hide Wrap;
    }

    static lemma SynDueIp(u: T.Sock, b: bool)
      ensures T.SynDue(u, b).remoteIp == u.remoteIp
    {
    }

    static lemma MarkKeeps(u: T.Sock, s: T.Segment, b: bool)
      ensures SameRings(u, T.SynDue(u, b)) && SameRings(u, T.Establish(u, s))
      ensures SameRings(u, T.WantAck(u)) && SameRings(u, T.WithWindow(u, s.wnd)) && SameRings(u, T.AckDone(u))
    {
    }

    /** What a synchronized socket does with the data and the FIN of an in-order segment. */
    method InOrder(s: T.Segment, now: U16)
      requires Valid()
      modifies this`t, this`sndHead, pool.mem
      ensures Valid() && t == T.InOrder(old(t), s, now)
      ensures SameOutside(old(pool.mem[..]), pool.mem[..], RcvAt(), T.RCVBUF)
    {
      hide Valid, T.HandleAck, T.WithWindow, T.TakeData, T.TakeFin, T.OurFinAcked, SameRings;
      HandleAck(s.ackno, now);
      MarkKeeps(t, s, true);
      Become(T.WithWindow(t, s.wnd));
      var fin := T.FinReached(t, s);
      Take(s.data);
      if fin {
        FinKeeps(t);
        Become(T.TakeFin(t));
      }
      FinKeeps(t);
      Become(T.OurFinAcked(t));
    }

    method Take(data: seq<Byte>)
      requires Valid()
      modifies this`t, pool.mem
      ensures Valid() && t == T.TakeData(old(t), data)
      ensures SameOutside(old(pool.mem[..]), pool.mem[..], RcvAt(), T.RCVBUF)
    {
      if data != [] {
        if T.Receiving(t) {
          var n := RingPut(data);
        } else {
          assert data[..0] == [];
          NotTaken();
        }
      }
      hide Valid, T.PutData;
    }

    /** Data in a state that takes none is only acknowledged. */
    method NotTaken()
      requires Valid()
      modifies this`t
      ensures Valid() && t == T.PutData(old(t), [])
    {
      t := T.PutData(t, []);
      hide Wrap, RingBytes;
    }

    /** segment_input past the handshake. */
    method SyncedInput(s: T.Segment, now: U16)
      requires Valid()
      modifies this`t, this`sndHead, pool.mem
      ensures Valid() && t == T.SyncedInput(old(t), s, now)
      ensures SameOutside(old(pool.mem[..]), pool.mem[..], RcvAt(), T.RCVBUF)
    {
      hide Valid, T.HandleAck, T.InOrder, T.WantAck, SameRings;
      if s.fl.ack {
        if s.seqno != t.rcvNxt {
          if s.data != [] || s.fl.fin {
            MarkKeeps(t, s, true);
            Become(T.WantAck(t));
          }
          HandleAck(s.ackno, now);
        } else {
          InOrder(s, now);
        }
      }
    }

    /** segment_input: one segment for this socket. */
    method SegmentInput(s: T.Segment, now: U16)
      requires Valid()
      modifies this`t, this`sndHead, pool.mem
      ensures Valid() && t == T.SegmentInput(old(t), s, now)
      ensures SameOutside(old(pool.mem[..]), pool.mem[..], RcvAt(), T.RCVBUF)
    {
      hide Valid, T.RstInput, T.SynSentInput, T.SyncedInput, T.Establish, T.SynDue, SameRings;
      MarkKeeps(t, s, true);
      if s.fl.rst {
        RstInput(s);
      } else if t.state == T.SynSent {
        SynSentInput(s);
      } else if t.state == T.SynRcvd {
        if s.fl.syn {
          if Wrap(s.seqno + 1) == t.rcvNxt {
            Become(T.SynDue(t, true));
          }
        } else if s.fl.ack && s.ackno == t.sndNxt && s.seqno == t.rcvNxt {
          Become(T.Establish(t, s));
          SyncedInput(s, now);
        }
      } else {
        SyncedInput(s, now);
      }
    }

    // ----- the poll -----

    static lemma TimerKeeps(u: T.Sock, now: U16)
      ensures SameRings(u, T.Restart(u, now)) && SameRings(u, T.OneSegment(u)) && SameRings(u, T.WaitFrom(u, now))
      ensures SameRings(u, T.ToClosed(u)) && T.ToClosed(u).remoteIp == u.remoteIp
      ensures T.WaitFrom(u, now).remoteIp == u.remoteIp && T.AckDone(u).remoteIp == u.remoteIp
    {
    }

    static lemma RetryKeeps(u: T.Sock)
      ensures u.retries < T.MAX_RETRIES ==> SameRings(u, T.CountRetry(u))
    {
    }

    static lemma ForgottenKeeps(u: T.Sock)
      requires u.retries == T.MAX_RETRIES
      ensures SameRings(u, T.Forgotten(u)) && T.Forgotten(u).remoteIp == u.remoteIp
    {
    }

    static lemma TimedOutKeeps(u: T.Sock)
      requires u.retries == T.MAX_RETRIES
      ensures SameRings(u, T.TimedOut(u)) && T.TimedOut(u).remoteIp == u.remoteIp
    {
    }

    static lemma GiveUpKeeps(u: T.Sock)
      requires u.retries == T.MAX_RETRIES
      ensures SameRings(u, T.GiveUp(u)) && T.GiveUp(u).remoteIp == u.remoteIp
    {
      hide T.Forgotten, T.TimedOut, SameRings;
      ForgottenKeeps(u);
      TimedOutKeeps(u);
    }

    method ResendSyn(now: U16)
      requires Valid()
      modifies this`t, nif`calls, nif`wire, nif.txf
      ensures Valid() && Performed(old(T.ResendSyn(t, now, nif.answers, nif.calls)))
    {
      ghost var u := t;
      TimerKeeps(t, now);
      Restarted(t, now);
      hide Valid, SameRings, T.Restart, T.SynDue, T.AfterEmit, T.SegmentOf, Datagrams;
      var syn := t.state == T.SynSent;
      Become(T.Restart(t, now));
      SynOut(if syn then T.FL_SYN else T.FL_SYN_ACK);
    }

    static lemma Restarted(u: T.Sock, now: U16)
      ensures var v := T.Restart(u, now); v.state == u.state && v.iss == u.iss && v.remoteIp == u.remoteIp
    {
    }

    method PollHandshake(now: U16)
      requires Valid() && T.Live(t)
      modifies this`t, nif`calls, nif`wire, nif.txf
      ensures Valid() && Performed(old(T.PollHandshake(t, now, nif.answers, nif.calls)))
    {
      NoDatagrams(nif.wire, nif.ip, t.remoteIp);
      RetryKeeps(t);
      hide Valid, SameRings, T.ResendSyn, T.GiveUp, T.CountRetry, Datagrams;
      if t.synPending {
        ResendSyn(now);
      } else if T.TimerExpired(t, now) {
        if t.retries == T.MAX_RETRIES {
          GiveUpKeeps(t);
          Become(T.GiveUp(t));
        } else {
          Become(T.CountRetry(t));
          ResendSyn(now);
        }
      }
    }

    method AckInTimeWait(now: U16)
      requires Valid()
      modifies this`t, nif`calls, nif`wire, nif.txf
      ensures Valid() && Performed(old(T.AckInTimeWait(t, now, nif.answers, nif.calls)))
    {
      MarkKeeps(t, T.SegmentOf(t, T.FL_ACK, 0, 0, 0, false), true);
      Acked(t);
      hide Valid, SameRings, T.AckDone, T.WaitFrom, T.AfterEmit, T.SegmentOf, Datagrams;
      Become(T.AckDone(t));
      var r := Emit(T.FL_ACK, t.sndNxt, 0, 0, false);
      TimerKeeps(t, now);
      Become(T.WaitFrom(t, now));
    }

    static lemma Acked(u: T.Sock)
      ensures T.AckDone(u).sndNxt == u.sndNxt
    {
    }

    method PollTimeWait(now: U16)
      requires Valid()
      modifies this`t, nif`calls, nif`wire, nif.txf
      ensures Valid() && Performed(old(T.PollTimeWait(t, now, nif.answers, nif.calls)))
    {
      hide Valid, SameRings, T.AckInTimeWait, T.ToClosed, Datagrams;
      NoDatagrams(nif.wire, nif.ip, t.remoteIp);
      if t.ackPending {
        AckInTimeWait(now);
      }
      TimerKeeps(t, now);
      if Wrap16(now - t.timewaitAt) >= T.TIME_WAIT_TICKS {
        Become(T.ToClosed(t));
      }
    }

    method Retransmit(now: U16)
      requires Valid() && T.Synced(t)
      modifies this`t, nif`calls, nif`wire, nif.txf
      ensures Valid() && Performed(old(T.Retransmit(t, now, nif.answers, nif.calls)))
    {
      hide Valid, SameRings, T.AfterEmit, T.SegmentOf, T.GiveUp, T.CountRetry, T.Restart, T.OneSegment, Datagrams, Wrap;
      if t.retries == T.MAX_RETRIES {
        NoDatagrams(nif.wire, nif.ip, t.remoteIp);
        GiveUpKeeps(t);
        Become(T.GiveUp(t));
      } else {
        var u := t;
        CountedRetry(u, now);
        Rearm(now);
        var r: T.Outcome;
        if u.inflight > 0 {
          r := Emit(T.FL_DATA, u.sndUna, 0, Min(u.inflight, u.peerMss), false);
        } else {
          r := Emit(T.FL_FIN_ACK, Wrap(u.sndNxt - 1), 0, 0, false);
        }
      }
    }

    static lemma CountedRetry(u: T.Sock, now: U16)
      requires T.Synced(u) && u.retries != T.MAX_RETRIES
      ensures u.retries < T.MAX_RETRIES
      ensures var v := T.OneSegment(T.Restart(T.CountRetry(u), now));
              v.sndLen == u.sndLen && v.inflight == u.inflight && v.remoteIp == u.remoteIp
    {
    }

    /** One more retry: the timeout doubled, the timer started again, one segment allowed. */
    method Rearm(now: U16)
      requires Valid() && t.retries < T.MAX_RETRIES
      modifies this`t
      ensures Valid() && t == T.OneSegment(T.Restart(T.CountRetry(old(t)), now))
    {
      hide Valid, SameRings, T.CountRetry, T.Restart, T.OneSegment;
      RetryKeeps(t);
      Become(T.CountRetry(t));
      TimerKeeps(t, now);
      Become(T.Restart(t, now));
      TimerKeeps(t, now);
      Become(T.OneSegment(t));
    }

    /** Queued data: as many segments as the peer's window and the congestion window allow. */
    method SendQueued(now: U16)
      requires Valid()
      modifies this`t, nif`calls, nif`wire, nif.txf
      ensures Valid() && Performed(old(T.SendQueued(t, now, nif.answers, nif.calls)))
    {
      var limit := Min(t.sndWnd, t.cwnd);
      Limited(t);
      hide Valid, SameRings, T.SendLoop, T.TxDue, Datagrams, T.Wf;
      var last := SendBurst(limit, now);
      DueKeeps(t, t.sndLen > t.inflight || last == T.Pending);
      Become(T.TxDue(t, t.sndLen > t.inflight || last == T.Pending));
    }

    static lemma Limited(u: T.Sock)
      ensures u.peerMss == 0 ==> Min(u.sndWnd, u.cwnd) == 0
    {
    }

    static lemma DueKeeps(u: T.Sock, b: bool)
      ensures SameRings(u, T.TxDue(u, b)) && T.TxDue(u, b).remoteIp == u.remoteIp
    {
    }

    /** One round of the send loop. */
    method BurstOne(limit: U16, now: U16) returns (r: T.Outcome)
      requires Valid() && T.MayBurst(t, limit) && t.peerMss > 0
      modifies this`t, nif`calls, nif`wire, nif.txf
      ensures Valid() && r == nif.answers(old(nif.calls))
      ensures var e := old(T.OfferNew(t, limit, nif.answers, nif.calls));
              Performed(if r == T.Ok then T.Step(old(T.AfterNew(e.t, T.NextSize(t, limit), now)), e.sent, e.calls) else e)
    {
      var n := T.NextSize(t, limit);
      NewKeeps(t, n, now);
      hide Valid, SameRings, T.AfterNew, T.AfterEmit, T.SegmentOf, Datagrams, T.Wf;
      r := Emit(T.FL_DATA, t.sndNxt, t.inflight, n, false);
      if r == T.Ok {
        Become(T.AfterNew(t, n, now));
      }
    }

    static lemma NewKeeps(u: T.Sock, n: nat, now: U16)
      requires u.inflight + n <= u.sndLen
      ensures n <= u.peerMss ==> n <= T.MSS
      ensures var v := T.AfterEmit(u, T.FL_DATA, T.Ok);
              v.inflight == u.inflight && v.sndLen == u.sndLen
              && SameRings(v, T.AfterNew(v, n, now)) && T.AfterNew(v, n, now).remoteIp == v.remoteIp
    {
    }

    /** One round peels one segment off what the loop still has to do. */
    static lemma Peeled(u: T.Sock, limit: U16, now: U16, link: T.Link, k: nat)
      requires T.MayBurst(u, limit) && (u.peerMss == 0 ==> limit == 0)
      ensures u.peerMss > 0
      ensures var e := T.OfferNew(u, limit, link, k);
              var b := T.SendLoop(u, limit, now, link, k);
              if link(k) == T.Ok then
                var v := T.AfterNew(e.t, T.NextSize(u, limit), now);
                var rest := T.SendLoop(v, limit, now, link, e.calls);
                && v.sndLen - v.inflight < u.sndLen - u.inflight && (v.peerMss == 0 ==> limit == 0)
                && b == T.Burst(rest.t, e.sent + rest.sent, rest.calls, rest.last)
              else b == T.Burst(e.t, [], e.calls, link(k)) && e.sent == []
    {
    }

    static lemma Finished(u: T.Sock, limit: U16, now: U16, link: T.Link, k: nat)
      requires !T.MayBurst(u, limit) && (u.peerMss == 0 ==> limit == 0)
      ensures T.SendLoop(u, limit, now, link, k) == T.Burst(u, [], k, T.Ok)
    {
    }

    /** `all` is `sent` on the way and then what the loop does from here. */
    static predicate Continues(all: T.Burst, sent: seq<T.Segment>, rest: T.Burst) {
      all.t == rest.t && all.sent == sent + rest.sent && all.calls == rest.calls && all.last == rest.last
    }

    method SendBurst(limit: U16, now: U16) returns (r: T.Outcome)
      requires Valid() && (t.peerMss == 0 ==> limit == 0)
      modifies this`t, nif`calls, nif`wire, nif.txf
      ensures Valid()
      ensures var b := old(T.SendLoop(t, limit, now, nif.answers, nif.calls));
              Performed(T.Step(b.t, b.sent, b.calls)) && r == b.last
    {
      hide Valid, T.MayBurst, T.SendLoop, T.OfferNew, T.AfterNew, T.NextSize, Datagrams, T.Wf;
      ghost var all := T.SendLoop(t, limit, now, nif.answers, nif.calls);
      ghost var sent: seq<T.Segment> := [];
      r := T.Ok;
      NoDatagrams(nif.wire, nif.ip, t.remoteIp);
      while T.MayBurst(t, limit)
        invariant Valid() && (t.peerMss == 0 ==> limit == 0) && r == T.Ok
        invariant nif.ip == old(nif.ip) && t.remoteIp == old(t.remoteIp)
        invariant nif.wire == old(nif.wire) + Datagrams(nif.ip, t.remoteIp, sent)
        invariant Continues(all, sent, T.SendLoop(t, limit, now, nif.answers, nif.calls))
        decreases t.sndLen - t.inflight
      {
        Peeled(t, limit, now, nif.answers, nif.calls);
        ghost var e := T.OfferNew(t, limit, nif.answers, nif.calls);
        SameIp(t, limit, now, nif.answers, nif.calls);
        DatagramsAppend(nif.ip, t.remoteIp, sent, e.sent);
        r := BurstOne(limit, now);
        sent := sent + e.sent;
        if r != T.Ok {
          return;
        }
      }
      Finished(t, limit, now, nif.answers, nif.calls);
      assert sent + [] == sent;
    }

    static lemma SameIp(u: T.Sock, limit: U16, now: U16, link: T.Link, k: nat)
      requires T.MayBurst(u, limit) && u.peerMss > 0
      ensures var e := T.OfferNew(u, limit, link, k);
              e.t.remoteIp == u.remoteIp && e.t.inflight == u.inflight && e.t.sndLen == u.sndLen
              && T.AfterNew(e.t, T.NextSize(u, limit), now).remoteIp == u.remoteIp
    {
    }

    /** Queued data all acknowledged and the application wants out. */
    method SendFin(now: U16)
      requires Valid() && T.Live(t)
      modifies this`t, nif`calls, nif`wire, nif.txf
      ensures Valid() && Performed(old(T.SendFin(t, now, nif.answers, nif.calls)))
    {
      Emitted(t, T.FL_FIN_ACK);
      AfterFinKeeps(t, now);
      hide Valid, SameRings, T.AfterFin, T.AfterEmit, T.SegmentOf, Datagrams;
      var r := Emit(T.FL_FIN_ACK, t.sndNxt, 0, 0, false);
      if r == T.Ok {
        Become(T.AfterFin(t, now));
      }
    }

    static lemma AfterFinKeeps(u: T.Sock, now: U16)
      requires T.Live(u)
      ensures var v := T.AfterEmit(u, T.FL_FIN_ACK, T.Ok);
              T.Live(v) && SameRings(v, T.AfterFin(v, now)) && T.AfterFin(v, now).remoteIp == v.remoteIp
    {
    }

    method SendAck()
      requires Valid()
      modifies this`t, nif`calls, nif`wire, nif.txf
      ensures Valid() && Performed(old(T.SendAck(t, nif.answers, nif.calls)))
    {
      hide Valid, SameRings, T.AckDone, T.AfterEmit, T.SegmentOf, Datagrams;
      var r := Emit(T.FL_ACK, t.sndNxt, 0, 0, false);
      if r != T.Pending {
        MarkKeeps(t, T.SegmentOf(t, T.FL_ACK, 0, 0, 0, false), true);
        TimerKeeps(t, 0);
        Become(T.AckDone(t));
      }
    }

    method PollSynced(now: U16)
      requires Valid() && T.Synced(t)
      modifies this`t, nif`calls, nif`wire, nif.txf
      ensures Valid() && Performed(old(T.PollSynced(t, now, nif.answers, nif.calls)))
    {
      NoDatagrams(nif.wire, nif.ip, t.remoteIp);
      hide Valid, T.Retransmit, T.SendQueued, T.SendFin, T.SendAck, T.TimerExpired, Datagrams, T.Wf;
      if T.Outstanding(t) && T.TimerExpired(t, now) {
        Retransmit(now);
      } else if t.txPending && t.sndLen > t.inflight {
        SendQueued(now);
      } else if t.finQueued && !t.finSent && t.inflight == 0 && t.sndLen == 0 {
        SendFin(now);
      } else if t.ackPending {
        SendAck();
      }
    }

    /** poll_one */
    method PollOne(now: U16)
      requires Valid()
      modifies this`t, nif`calls, nif`wire, nif.txf
      ensures Valid() && Performed(old(T.PollOne(t, now, nif.answers, nif.calls)))
    {
      NoDatagrams(nif.wire, nif.ip, t.remoteIp);
      hide Valid, T.PollHandshake, T.PollTimeWait, T.PollSynced, Datagrams, T.Wf;
      match t.state {
        case Closed | Listen =>
        case SynSent | SynRcvd => PollHandshake(now);
        case TimeWait => PollTimeWait(now);
        case _ => PollSynced(now);
      }
    }
  }

  /** The option loop of take_mss over the bytes between the header and the data. */
  method TakeMss(opts: seq<Byte>, mss: U16) returns (r: U16)
    ensures r == T.TakeMss(opts, mss)
  {
    r := mss;
    var o := 0;
    while o + 1 < |opts|
      invariant T.ScanMss(opts, o, r) == T.ScanMss(opts, 0, mss)
      decreases |opts| - o
    {
      var kind := opts[o];
      if kind == 0 {
        break;
      }
      if kind == 1 {
        o := o + 1;
        continue;
      }
      if kind == 2 && opts[o + 1] == 4 && o + 3 < |opts| {
        r := Get16(opts[o + 2], opts[o + 3]);
      }
      if opts[o + 1] < 2 {
        break;
      }
      o := o + opts[o + 1];
    }
    if r > T.MSS {
      r := T.MSS;
    }
  }
}
