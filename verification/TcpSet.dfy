/**
  The set of sockets: mn_tcp_init lays their rings out in the pool, mn_tcp_input hands each
  segment to at most one of them, mn_tcp_poll walks them.
*/
module TcpSet {
  import opened Words
  import opened Common
  import opened Xmem
  import opened Checksum
  import opened TcpCodec
  import opened NetLink
  import opened TcpSocket
  import T = Tcp
  import D = TcpDispatch

  /** How many sockets fit before the next 64 KB boundary. */
  function Fits(n: Byte, base: U32): (r: Byte)
    ensures r <= n && base % 0x1_0000 + r * SOCKET_XMEM <= 0x1_0000
    ensures r < n ==> base % 0x1_0000 + (r + 1) * SOCKET_XMEM > 0x1_0000
  {
    var room := 0x1_0000 - base % 0x1_0000;
    if n * SOCKET_XMEM > room then room / SOCKET_XMEM else n
  }

  class Set {
    const pool: Pool
    const nif: Nif
    const seg: U16
    const base: U16
    var socks: seq<Socket>
    var now: U16
    var rstSent: U16

    /** Socket i has its own stretch of the pool, right after that of socket i - 1. */
    ghost predicate Laid()
      reads this
    {
      && base + |socks| * SOCKET_XMEM <= 0x1_0000
      && Address(seg, base) + |socks| * SOCKET_XMEM <= pool.mem.Length
      && forall i :: 0 <= i < |socks| ==>
           && socks[i].pool == pool && socks[i].nif == nif
           && socks[i].xseg == seg && socks[i].rcvbuf == base + i * SOCKET_XMEM
    }

    ghost predicate Valid()
      reads this, socks, pool.mem
    {
      && Laid()
      && (forall i :: 0 <= i < |socks| ==> socks[i].Valid())
      && (forall i, j :: 0 <= i < j < |socks| ==> socks[i] != socks[j])
    }

    ghost function Views(): (v: seq<T.Sock>)
      reads this, socks
      ensures |v| == |socks|
    {
      seq(|socks|, i requires 0 <= i < |socks| reads this, socks => socks[i].t)
    }

    /** mn_tcp_init: as many of `n` sockets as fit in the pool's segment. */
    constructor (pool: Pool, nif: Nif, n: Byte, at: U32)
      requires pool.mem != nif.txf && nif.txf.Length == MAX_FRAME && at + Fits(n, at) * SOCKET_XMEM <= pool.mem.Length
      ensures Valid() && fresh(socks) && |socks| == Fits(n, at)
      ensures this.pool == pool && this.nif == nif && Address(seg, base) == at
      ensures forall i :: 0 <= i < |socks| ==> socks[i].t == T.FRESH
    {
      this.pool, this.nif := pool, nif;
      seg, base := at / 0x1_0000, at % 0x1_0000;
      now, rstSent := 0, 0;
      socks := [];
      new;
      Fill(Fits(n, at));
    }

    method Fill(m: nat)
      requires Valid() && socks == [] && base + m * SOCKET_XMEM <= 0x1_0000
      requires Address(seg, base) + m * SOCKET_XMEM <= pool.mem.Length
      requires pool.mem != nif.txf && nif.txf.Length == MAX_FRAME
      modifies this`socks
      ensures Valid() && fresh(socks) && |socks| == m
      ensures forall i :: 0 <= i < |socks| ==> socks[i].t == T.FRESH
    {
      hide Valid, T.Wf;
      while |socks| < m
        invariant |socks| <= m && Valid() && fresh(socks)
        invariant forall j :: 0 <= j < |socks| ==> socks[j].t == T.FRESH
      {
        Add();
      }
    }

    /** One more socket, right after the last. */
    method Add()
      requires Valid() && base + (|socks| + 1) * SOCKET_XMEM <= 0x1_0000
      requires Address(seg, base) + (|socks| + 1) * SOCKET_XMEM <= pool.mem.Length
      requires pool.mem != nif.txf && nif.txf.Length == MAX_FRAME
      modifies this`socks
      ensures Valid() && |socks| == old(|socks|) + 1 && socks[..old(|socks|)] == old(socks)
      ensures fresh(socks[old(|socks|)]) && socks[old(|socks|)].t == T.FRESH
    {
      hide Socket.Valid, T.Wf;
      var s := new Socket(pool, nif, seg, base + |socks| * SOCKET_XMEM);
      socks := socks + [s];
    }

    /** The stretches of two sockets do not meet. */
    lemma Apart(i: nat, j: nat)
      requires Laid() && i < |socks| && j < |socks| && i != j
      ensures socks[i].RcvAt() + SOCKET_XMEM <= socks[j].RcvAt() || socks[j].RcvAt() + SOCKET_XMEM <= socks[i].RcvAt()
    {
    }

    /** After something that changed only socket i and its rings, everyone else is as before. */
    lemma OthersHold(i: nat, m: seq<Byte>)
      requires Laid() && i < |socks| && |m| == pool.mem.Length
      requires forall j :: 0 <= j < |socks| && j != i ==> socks[j].HoldsOn(m)
      requires SameOutside(m, pool.mem[..], socks[i].RcvAt(), SOCKET_XMEM)
      ensures forall j :: 0 <= j < |socks| && j != i ==> socks[j].Valid()
    {
      forall j | 0 <= j < |socks| && j != i
        ensures socks[j].Valid()
      {
        Apart(i, j);
        socks[j].Elsewhere(m, pool.mem[..]);
        socks[j].ValidHolds();
      }
    }

    /** What everyone's rings hold, on the pool as it is now. */
    lemma AllHold()
      requires Valid()
      ensures forall j :: 0 <= j < |socks| ==> socks[j].HoldsOn(pool.mem[..])
    {
      forall j | 0 <= j < |socks| ensures socks[j].HoldsOn(pool.mem[..]) {
        socks[j].ValidHolds();
      }
    }

    lemma WithinStretch(i: nat, m: seq<Byte>, m': seq<Byte>)
      requires Laid() && i < |socks| && socks[i].Placed()
      requires SameOutside(m, m', socks[i].RcvAt(), T.RCVBUF)
      ensures SameOutside(m, m', socks[i].RcvAt(), SOCKET_XMEM)
    {
    }

    /** Nobody's stretch of the pool but that of socket i has changed. */
    twostate predicate OnlyStretch(i: nat)
      reads this, socks, pool.mem
      requires i < |socks|
    {
      SameOutside(old(pool.mem[..]), pool.mem[..], socks[i].RcvAt(), SOCKET_XMEM)
    }

    /** A segment for socket i. */
    method ToOwner(i: nat, s: T.Segment)
      requires Valid() && i < |socks|
      modifies socks, pool.mem
      ensures Valid() && Views() == old(Views())[i := T.SegmentInput(old(Views())[i], s, now)]
      ensures OnlyStretch(i)
    {
      ghost var m := pool.mem[..];
      AllHold();
      socks[i].SegmentInput(s, now);
      WithinStretch(i, m, pool.mem[..]);
      OthersHold(i, m);
    }

    lemma WithinSend(i: nat, m: seq<Byte>, m': seq<Byte>)
      requires Laid() && i < |socks| && socks[i].Placed()
      requires SameOutside(m, m', socks[i].SndAt(), T.SNDBUF)
      ensures SameOutside(m, m', socks[i].RcvAt(), SOCKET_XMEM)
    {
    }

    /** mn_tcp_send on socket i: nobody else's rings are touched. */
    method SendOn(i: nat, data: seq<Byte>) returns (n: U16)
      requires Valid() && i < |socks|
      modifies socks, pool.mem
      ensures Valid() && Views() == old(Views())[i := T.SendBytes(old(Views())[i], data)]
      ensures n == T.Accepts(old(Views())[i], |data|) && OnlyStretch(i)
    {
      ghost var m := pool.mem[..];
      AllHold();
      n := socks[i].Send(data);
      WithinSend(i, m, pool.mem[..]);
      OthersHold(i, m);
    }

    /** mn_tcp_recv on socket i. */
    method RecvFrom(i: nat, out: array<Byte>, cap: U16) returns (n: U16)
      requires Valid() && i < |socks| && cap <= out.Length && out != pool.mem
      modifies socks, out
      ensures Valid() && Views() == old(Views())[i := T.RecvBytes(old(Views())[i], cap)]
      ensures n <= out.Length && out[..n] == T.Received(old(Views())[i], cap)
    {
      hide Socket.Valid, T.RecvBytes, T.Received, T.Wf;
      n := socks[i].Recv(out, cap);
    }

    /** mn_tcp_connect on socket i. */
    method Connect(i: nat, ip: Addr, port: U16, localPort: U16, iss: U32, tick: U16) returns (ok: bool)
      requires Valid() && i < |socks|
      modifies socks, nif`calls, nif`wire, nif.txf
      ensures Valid() && ok == (old(Views())[i].state == T.Closed)
      ensures var r := old(T.Connect(Views()[i], ip, port, localPort, iss, tick, nif.answers, nif.calls));
              Views() == old(Views())[i := r.t] && nif.wire == old(nif.wire) + Datagrams(nif.ip, r.t.remoteIp, r.sent)
    {
      hide Socket.Valid, T.Connect, T.Wf, Datagrams;
      socks[i].TxfLength();
      ok := socks[i].Connect(ip, port, localPort, iss, tick);
    }

    /** mn_tcp_listen on socket i. */
    method ListenOn(i: nat, port: U16) returns (ok: bool)
      requires Valid() && i < |socks|
      modifies socks
      ensures Valid() && Views() == old(Views())[i := T.ListenOn(old(Views())[i], port)]
      ensures ok == (old(Views())[i].state == T.Closed && port != 0)
    {
      hide Socket.Valid, T.ListenOn, T.Wf;
      ok := socks[i].ListenOn(port);
    }

    /** mn_tcp_close on socket i. */
    method CloseDown(i: nat)
      requires Valid() && i < |socks|
      modifies socks
      ensures Valid() && Views() == old(Views())[i := T.CloseDown(old(Views())[i])]
    {
      hide Socket.Valid, T.CloseDown, T.Wf;
      socks[i].Close();
    }

    /** mn_tcp_abort on socket i. */
    method Abort(i: nat)
      requires Valid() && i < |socks|
      modifies socks, nif`calls, nif`wire, nif.txf
      ensures Valid()
      ensures var r := old(T.Abort(Views()[i], nif.answers, nif.calls));
              Views() == old(Views())[i := r.t] && nif.wire == old(nif.wire) + Datagrams(nif.ip, r.t.remoteIp, r.sent)
    {
      hide Socket.Valid, T.Abort, T.Wf, Datagrams;
      socks[i].TxfLength();
      socks[i].Abort();
    }

    /** A SYN for listener i. */
    method ToListener(i: nat, src: Addr, s: T.Segment, iss: U32)
      requires Valid() && i < |socks|
      modifies socks, nif`calls, nif`wire, nif.txf
      ensures Valid()
      ensures var r := old(T.PassiveOpen(Views()[i], src, s, iss, now, nif.answers, nif.calls));
              Views() == old(Views())[i := r.t] && nif.wire == old(nif.wire) + Datagrams(nif.ip, r.t.remoteIp, r.sent)
    {
      hide Socket.Valid, T.PassiveOpen, T.Wf, Datagrams;
      socks[i].TxfLength();
      socks[i].PassiveOpen(src, s, iss, now);
    }

    /** The RST for a segment nobody owns; it is not offered again if the next hop is unknown. */
    method SendRst(src: Addr, rst: T.Segment)
      requires nif.txf.Length == MAX_FRAME && Encodable(rst) && rst.data == [] && rst.opts == []
      modifies nif`calls, nif`wire, nif.txf
      ensures nif.wire == old(nif.wire) +
                if nif.answers(old(nif.calls)) == T.Ok then Datagrams(nif.ip, src, [rst]) else []
    {
      BytesSealed(nif.ip, src, rst);
      hide Encodable, Encode, Bytes, TransportChecksum, WithField, Header;
      var ok := nif.TxBegin();
      if ok {
        PutHeader(nif.txf, TX_OFFSET, rst);
        assert nif.txf[TX_OFFSET..TX_OFFSET + HDR_LEN] == Blank(rst);
        Seal(nif.txf, nif.ip, src, HDR_LEN);
        var r := nif.TxSend(src, HDR_LEN);
      }
    }

    /** What the link accepts in answer to a segment: a listener's SYN ACK, an RST, or nothing. */
    static ghost function Answer(v: seq<T.Sock>, src: Addr, s: T.Segment, iss: U32, now: U16,
                                 ip: Addr, link: T.Link, k: nat): seq<Datagram>
    {
      match D.Route(v, src, s)
      case ToListener(j) =>
        if j < |v| then
          var r := T.PassiveOpen(v[j], src, s, iss, now, link, k);
          Datagrams(ip, r.t.remoteIp, r.sent)
        else []
      case Rejected(rst) => if link(k) == T.Ok then Datagrams(ip, src, [rst]) else []
      case _ => []
    }

    /** The three ways of a segment: the verdict, the sockets and the answer that go with each. */
    static lemma Routed(v: seq<T.Sock>, src: Addr, s: T.Segment, iss: U32, now: U16, ip: Addr, link: T.Link, k: nat)
      ensures var i, j := D.Owner(v, src, s), D.Listener(v, s);
              var set', out := D.Dispatch(v, src, s, iss, now, link, k), Answer(v, src, s, iss, now, ip, link, k);
              if i < |v| then
                D.Route(v, src, s) == D.ToOwner(i) && set' == v[i := T.SegmentInput(v[i], s, now)] && out == []
              else if T.BareSyn(s) && j < |v| then
                var r := T.PassiveOpen(v[j], src, s, iss, now, link, k);
                D.Route(v, src, s) == D.ToListener(j) && set' == v[j := r.t] && out == Datagrams(ip, r.t.remoteIp, r.sent)
              else
                && !D.Route(v, src, s).ToOwner? && set' == v
                && out == if !s.fl.rst && link(k) == T.Ok then Datagrams(ip, src, [D.RstReply(s)]) else []
    {
      hide T.SegmentInput, T.PassiveOpen, T.BareSyn, D.Owner, D.Listener, D.RstReply, T.Wf, Datagrams;
    }

    /** mn_tcp_input: the owner of the four-tuple, else a listener for a SYN, else an RST; a segment
        that fails its checksum or whose header does not fit goes nowhere. */
    method Input(src: Addr, dst: Addr, b: seq<Byte>, iss: U32)
      requires Valid() && |b| < 0x1_0000 && nif.txf.Length == MAX_FRAME && pool.mem != nif.txf
      modifies this`rstSent, socks, pool.mem, nif`calls, nif`wire, nif.txf
      ensures Valid() && socks == old(socks)
      ensures Views() == match Decode(src, dst, b)
                         case None => old(Views())
                         case Some(s) => old(D.Dispatch(Views(), src, s, iss, now, nif.answers, nif.calls))
      ensures match Decode(src, dst, b)
              case Some(s) =>
                (match D.Route(old(Views()), src, s)
                 case ToOwner(i) => OnlyStretch(i)
                 case _ => unchanged(pool.mem))
              case None => unchanged(pool.mem)
      ensures match Decode(src, dst, b)
              case None => nif.wire == old(nif.wire)
              case Some(s) =>
                nif.wire == old(nif.wire) + old(Answer(Views(), src, s, iss, now, nif.ip, nif.answers, nif.calls))
    {
      hide Socket.Valid, T.SegmentInput, T.PassiveOpen, T.Owns, T.Listens, D.Owner, D.Listener, D.RstReply,
           Decode, T.Wf, Datagrams, Encodable, SameOutside;
      var d := Decode(src, dst, b);
      if d.Some? {
        Take(src, d.value, iss);
      }
    }

    /** A segment that has been decoded. */
    method Take(src: Addr, s: T.Segment, iss: U32)
      requires Valid() && nif.txf.Length == MAX_FRAME && pool.mem != nif.txf
      modifies this`rstSent, socks, pool.mem, nif`calls, nif`wire, nif.txf
      ensures Valid() && socks == old(socks)
      ensures Views() == old(D.Dispatch(Views(), src, s, iss, now, nif.answers, nif.calls))
      ensures match D.Route(old(Views()), src, s)
              case ToOwner(i) => OnlyStretch(i)
              case _ => unchanged(pool.mem)
      ensures nif.wire == old(nif.wire) + old(Answer(Views(), src, s, iss, now, nif.ip, nif.answers, nif.calls))
    {
      hide Socket.Valid, T.SegmentInput, T.PassiveOpen, T.Owns, T.Listens, D.Owner, D.Listener, D.RstReply,
           T.Wf, Datagrams, Encodable, SameOutside, D.Dispatch, D.Route, Answer, Laid;
      Routed(Views(), src, s, iss, now, nif.ip, nif.answers, nif.calls);
      var i := FindOwner(src, s);
      var j := FindListener(s);
      if i < |socks| {
        ToOwner(i, s);
      } else if T.BareSyn(s) && j < |socks| {
        ToListener(j, src, s, iss);
      } else if !s.fl.rst {
        Reject(src, s);
      }
    }

    /** A segment for nobody is answered, unless it is an RST itself. */
    method Reject(src: Addr, s: T.Segment)
      requires Valid() && nif.txf.Length == MAX_FRAME && pool.mem != nif.txf
      modifies this`rstSent, nif`calls, nif`wire, nif.txf
      ensures Valid() && rstSent == Wrap16(old(rstSent) + 1)
      ensures nif.wire == old(nif.wire) +
                if nif.answers(old(nif.calls)) == T.Ok then Datagrams(nif.ip, src, [D.RstReply(s)]) else []
    {
      hide Socket.Valid, D.RstReply, T.Wf, Datagrams, Encodable;
      RstEncodable(s);
      SendRst(src, D.RstReply(s));
      rstSent := Wrap16(rstSent + 1);
    }

    /** The first socket that owns the segment's four-tuple, or their number. */
    method FindOwner(src: Addr, s: T.Segment) returns (i: nat)
      ensures i == D.Owner(Views(), src, s)
    {
      ghost var v := Views();
      hide T.Owns, D.Owner, T.Wf;
      i := 0;
      while i < |socks| && !T.Owns(socks[i].t, src, s)
        invariant i <= |socks|
        invariant forall j :: 0 <= j < i ==> !T.Owns(v[j], src, s)
      {
        i := i + 1;
      }
      D.FirstOwner(v, src, s, i);
    }

    /** The first socket that listens for the SYN, or their number. */
    method FindListener(s: T.Segment) returns (i: nat)
      ensures i == D.Listener(Views(), s)
    {
      ghost var v := Views();
      hide T.Listens, D.Listener, T.Wf;
      i := 0;
      while i < |socks| && !T.Listens(socks[i].t, s)
        invariant i <= |socks|
        invariant forall j :: 0 <= j < i ==> !T.Listens(v[j], s)
      {
        i := i + 1;
      }
      D.FirstListener(v, s, i);
    }

    static lemma RstEncodable(s: T.Segment)
      ensures var r := D.RstReply(s); Encodable(r) && r.data == [] && r.opts == []
    {
    }

    /** mn_tcp_poll */
    method Poll(tick: U16)
      requires Valid()
      modifies this`now, socks, nif`calls, nif`wire, nif.txf
      ensures Valid() && socks == old(socks) && now == tick
      ensures var r := old(PollFirst(Views(), |socks|, tick, nif.ip, nif.answers, nif.calls));
              Views() == r.socks && nif.calls == r.calls && nif.wire == old(nif.wire) + r.out
    {
      hide Socket.Valid, T.PollOne, T.Wf, Datagrams, PollFirst;
      ghost var v := Views();
      NoneYet(v, tick, nif.ip, nif.answers, nif.calls, nif.wire);
      now := tick;
      var i := 0;
      while i < |socks|
        invariant i <= |socks| && Valid() && now == tick && socks == old(socks) && nif.ip == old(nif.ip)
        invariant var r := PollFirst(v, i, tick, nif.ip, nif.answers, old(nif.calls));
                  Views() == r.socks && nif.calls == r.calls && nif.wire == old(nif.wire) + r.out
      {
        socks[i].TxfLength();
        OneMore(v, i, tick, nif.ip, nif.answers, old(nif.calls), old(nif.wire));
        socks[i].PollOne(tick);
        i := i + 1;
      }
    }
  }

  /** A round of polls: the sockets, what the link has accepted, the number of its next attempt. */
  datatype Round = Round(socks: seq<T.Sock>, out: seq<Datagram>, calls: nat)

  /** The first `n` sockets polled in turn, the link's attempts numbered through. */
  ghost function PollFirst(v: seq<T.Sock>, n: nat, tick: U16, ip: Addr, link: T.Link, k: nat): (r: Round)
    requires n <= |v|
    ensures |r.socks| == |v|
  {
    if n == 0 then Round(v, [], k)
    else
      var p := PollFirst(v, n - 1, tick, ip, link, k);
      var s := T.PollOne(v[n - 1], tick, link, p.calls);
      Round(p.socks[n - 1 := s.t], p.out + Datagrams(ip, s.t.remoteIp, s.sent), s.calls)
  }

  /** A socket whose turn has not come is as it was. */
  lemma {:induction false} PollLater(v: seq<T.Sock>, n: nat, i: nat, tick: U16, ip: Addr, link: T.Link, k: nat)
    requires n <= i < |v|
    ensures PollFirst(v, n, tick, ip, link, k).socks[i] == v[i]
  {
    hide T.PollOne, T.Wf, Datagrams;
    if n > 0 {
      PollLater(v, n - 1, i, tick, ip, link, k);
    }
  }

  lemma NoneYet(v: seq<T.Sock>, tick: U16, ip: Addr, link: T.Link, k: nat, w: seq<Datagram>)
    ensures PollFirst(v, 0, tick, ip, link, k) == Round(v, [], k) && w + [] == w
  {
  }

  lemma OneMore(v: seq<T.Sock>, i: nat, tick: U16, ip: Addr, link: T.Link, k: nat, w: seq<Datagram>)
    requires i < |v|
    ensures var p, q := PollFirst(v, i, tick, ip, link, k), PollFirst(v, i + 1, tick, ip, link, k);
            var s := T.PollOne(v[i], tick, link, p.calls);
            && p.socks[i] == v[i] && q.socks == p.socks[i := s.t] && q.calls == s.calls
            && w + q.out == w + p.out + Datagrams(ip, s.t.remoteIp, s.sent)
  {
    hide T.PollOne, T.Wf, Datagrams;
    PollLater(v, i, i, tick, ip, link, k);
  }

  /** In a round of polls every socket takes exactly one step of its own. */
  lemma {:induction false} PolledOnce(v: seq<T.Sock>, n: nat, i: nat, tick: U16, ip: Addr, link: T.Link, k: nat)
    requires i < n <= |v|
    ensures exists a: nat :: PollFirst(v, n, tick, ip, link, k).socks[i] == T.PollOne(v[i], tick, link, a).t
  {
    hide T.PollOne, T.Wf, Datagrams;
    if i < n - 1 {
      PolledOnce(v, n - 1, i, tick, ip, link, k);
    } else {
      PollLater(v, i, i, tick, ip, link, k);
      var a := PollFirst(v, i, tick, ip, link, k).calls;
      assert PollFirst(v, n, tick, ip, link, k).socks[i] == T.PollOne(v[i], tick, link, a).t;
    }
  }
}
