/**
  The pool as mn_api_init (src/abi/api.c) lays it out: eight TCP sockets first, four UDP
  mailboxes after them, all in one array.  No call, segment, datagram or poll of one of them
  changes what another holds.
*/
module SharedPool {
  import opened Words
  import opened Common
  import opened Xmem
  import opened Checksum
  import opened TcpCodec
  import opened NetLink
  import opened TcpSocket
  import opened TcpSet
  import opened Mailboxes
  import opened Packets
  import T = Tcp
  import D = TcpDispatch

  const TCP_SOCKETS: Byte := 8
  /** The rings of all the sockets. */
  const RINGS: int := 57344

  /** Where the rings of socket i start. */
  function RingsAt(base: U32, i: nat): nat { base + i * SOCKET_XMEM }

  /** Where the mailboxes start. */
  function BoxesBase(base: U32): U32 { Wrap(base + RINGS) }

  /** Wherever the pool starts, no mailbox overlaps the rings of any socket that mn_tcp_init has set up. */
  lemma RingsAndBoxesApart(base: U32, i: nat, j: nat)
    requires i < Fits(TCP_SOCKETS, base) && j < 4
    ensures var r, b := RingsAt(base, i), MailAt(BoxesBase(base), j);
            r + SOCKET_XMEM <= b || b + SOCK_BUF <= r
  {
    var q, o := base / 0x1_0000, base % 0x1_0000;
    var b := BoxesBase(base);
    if base + RINGS >= M32 {
      assert b == base + RINGS - M32;
    } else if o < 8192 {
      Divided(b, q, o + RINGS);
      SlotAt(b, j);
    } else {
      Divided(b, q + 1, o - 8192);
      SlotAt(b, j);
    }
  }

  lemma Divided(x: nat, q: nat, r: nat)
    requires x == q * 0x1_0000 + r && r < 0x1_0000
    ensures x / 0x1_0000 == q && x % 0x1_0000 == r
  {
  }

  /** Where a mailbox lies, by the place of the first in its segment. */
  lemma SlotAt(b: U32, j: nat)
    requires j < 4
    ensures var x := b % 0x1_0000 + j * SOCK_BUF;
            var y := if x < 0x1_0000 then x else x - 0x1_0000;
            MailAt(b, j) == b - b % 0x1_0000 + y && MailAt(b, j) % 0x1_0000 == y
  {
    var x := b % 0x1_0000 + j * SOCK_BUF;
    var y := if x < 0x1_0000 then x else x - 0x1_0000;
    var q := b / 0x1_0000;
    Divided(b + j * SOCK_BUF, if x < 0x1_0000 then q else q + 1, y);
    Divided(MailAt(b, j), q, y);
  }

  /** Mailbox j follows the others and stays inside its 64 KB segment. */
  predicate InPlace(base: U32, j: nat)
    requires j < 4
  {
    && MailAt(BoxesBase(base), j) == base + RINGS + j * SOCK_BUF
    && MailAt(BoxesBase(base), j) % 0x1_0000 + SOCK_BUF <= 0x1_0000
  }

  lemma InPlaceIff(base: U32, j: nat)
    requires j < 4 && base + RINGS + 4 * SOCK_BUF <= M32
    ensures InPlace(base, j) <==> base % 0x1_0000 + (j + 1) * SOCK_BUF <= 8192 || base % 0x1_0000 >= 8192
  {
    var q, o := base / 0x1_0000, base % 0x1_0000;
    var b := BoxesBase(base);
    if o < 8192 {
      Divided(b, q, o + RINGS);
    } else {
      Divided(b, q + 1, o - 8192);
    }
    SlotAt(b, j);
    hide MailAt;
  }

  /** All four mailboxes lie right after the rings, in one 64 KB segment as mn_net_set_pool asks,
      exactly if the pool starts at most 5888 or at least 8192 bytes into its segment. */
  lemma BoxesInOneSegment(base: U32)
    requires base + RINGS + 4 * SOCK_BUF <= M32
    ensures (forall j: nat :: j < 4 ==> InPlace(base, j)) <==> base % 0x1_0000 <= 5888 || base % 0x1_0000 >= 8192
  {
    forall j: nat | j < 4
      ensures InPlace(base, j) <==> base % 0x1_0000 + (j + 1) * SOCK_BUF <= 8192 || base % 0x1_0000 >= 8192
    {
      InPlaceIff(base, j);
    }
    hide InPlace;
    assert InPlace(base, 3) <==> base % 0x1_0000 <= 5888 || base % 0x1_0000 >= 8192;
  }

  class Api {
    const pool: Pool
    const tcp: Set
    const udp: Udp
    const base: U32

    ghost predicate Valid()
      reads tcp, tcp.socks, udp, pool.mem
    {
      && tcp.pool == pool && udp.pool == pool && tcp.Valid() && udp.Valid()
      && Address(tcp.seg, tcp.base) == base && |tcp.socks| <= Fits(TCP_SOCKETS, base)
      && udp.base == BoxesBase(base) && tcp.nif.txf != pool.mem && tcp.nif.txf.Length == MAX_FRAME
    }

    /** mn_api_init, as far as the pool goes. */
    constructor (pool: Pool, nif: Nif, base: U32)
      requires pool.mem != nif.txf && nif.txf.Length == MAX_FRAME
      requires base + Fits(TCP_SOCKETS, base) * SOCKET_XMEM <= pool.mem.Length
      requires forall j: nat :: j < 4 ==> MailAt(BoxesBase(base), j) + SOCK_BUF <= pool.mem.Length
      ensures Valid() && |tcp.socks| == Fits(TCP_SOCKETS, base)
      ensures this.pool == pool && this.base == base
    {
      this.pool, this.base := pool, base;
      this.tcp := new Set(pool, nif, TCP_SOCKETS, base);
      this.udp := new Udp(pool, BoxesBase(base));
    }

    /** What changed only in mailbox j is not in any ring. */
    lemma RingsUntouched(m: seq<Byte>, j: nat)
      requires tcp.Laid() && tcp.pool == pool && |m| == pool.mem.Length && j < 4
      requires Address(tcp.seg, tcp.base) == base && |tcp.socks| <= Fits(TCP_SOCKETS, base)
      requires forall i :: 0 <= i < |tcp.socks| ==> tcp.socks[i].HoldsOn(m)
      requires SameOutside(m, pool.mem[..], MailAt(BoxesBase(base), j), SOCK_BUF)
      ensures forall i :: 0 <= i < |tcp.socks| ==> tcp.socks[i].Valid()
    {
      forall i | 0 <= i < |tcp.socks|
        ensures tcp.socks[i].Valid()
      {
        var s := tcp.socks[i];
        RingsAndBoxesApart(base, i, j);
        assert s.RcvAt() == RingsAt(base, i);
        hide MailAt, RingsAt, Socket.HoldsOn, Socket.Valid, Socket.RcvAt, Fits, BoxesBase;
        s.Elsewhere(m, pool.mem[..]);
        s.ValidHolds();
      }
    }

    /** What changed only in the rings of socket i is not in any mailbox. */
    lemma BoxesUntouched(m: seq<Byte>, i: nat, j: nat)
      requires udp.Valid() && udp.pool == pool && |m| == pool.mem.Length && j < 4
      requires udp.base == BoxesBase(base) && i < Fits(TCP_SOCKETS, base)
      requires SameOutside(m, pool.mem[..], RingsAt(base, i), SOCKET_XMEM)
      ensures udp.Contents(j) == Holds(udp.socks[j], m, MailAt(udp.base, j))
    {
      RingsAndBoxesApart(base, i, j);
      hide MailAt, RingsAt, Fits, BoxesBase;
      var at, n := MailAt(udp.base, j), udp.socks[j].len;
      assert pool.mem[..][at..at + n] == m[at..at + n];
    }

    /** A datagram for a mailbox: no connection notices. */
    method Datagram(src: Addr, dst: Addr, dgram: array<Byte>, at: nat, len: U16) returns (taken: bool)
      requires Valid() && at + len <= dgram.Length && dgram != pool.mem
      modifies udp`socks, pool.mem
      ensures Valid() && tcp.Views() == old(tcp.Views()) && udp.Ports() == old(udp.Ports())
      ensures var b := dgram[at..at + len];
              if !UdpValid(src, dst, b) then !taken && udp.AllContents() == old(udp.AllContents())
              else
                var i, mail := FirstPort(old(udp.socks), Field(b, 2)), Mail(src, Field(b, 0), b[UDP_HDR..]);
                && taken == (i < 4 && !old(udp.socks)[i].pending && |mail.data| <= SOCK_BUF)
                && udp.AllContents() == if taken then old(udp.AllContents())[i := Full(mail)] else old(udp.AllContents())
    {
      ghost var m := pool.mem[..];
      tcp.AllHold();
      hide Socket.Valid, Socket.HoldsOn, FirstPort, UdpValid;
      ghost var i := FirstPort(udp.socks, if len >= UDP_HDR then Field(dgram[at..at + len], 2) else 0);
      taken := udp.DeliverUdp(src, dst, dgram, at, len);
      if taken {
        Udp.HeaderFits(src, dst, dgram[at..at + len]);
        RingsUntouched(m, i);
      }
    }

    /** A segment for the TCP sockets: no mailbox notices. */
    method Segment(src: Addr, dst: Addr, b: seq<Byte>, iss: U32)
      requires Valid() && |b| < 0x1_0000
      modifies tcp`rstSent, tcp.socks, pool.mem, tcp.nif`calls, tcp.nif`wire, tcp.nif.txf
      ensures Valid() && udp.AllContents() == old(udp.AllContents())
      ensures tcp.Views() == match Decode(src, dst, b)
                             case None => old(tcp.Views())
                             case Some(s) =>
                               old(D.Dispatch(tcp.Views(), src, s, iss, tcp.now, tcp.nif.answers, tcp.nif.calls))
    {
      ghost var m, v := pool.mem[..], tcp.Views();
      hide Decode, D.Dispatch, D.Owner, D.Listener, Socket.Valid, T.BareSyn, D.RstReply, Holds;
      tcp.Input(src, dst, b, iss);
      ghost var d := Decode(src, dst, b);
      if d.Some? && D.Route(v, src, d.value).ToOwner? {
        ghost var i := D.Route(v, src, d.value).i;
        assert tcp.socks[i].RcvAt() == RingsAt(base, i);
        forall j: nat | j < 4
          ensures udp.Contents(j) == Holds(udp.socks[j], m, MailAt(udp.base, j))
        {
          BoxesUntouched(m, i, j);
        }
      }
    }

    /** Bytes accepted by one connection: no mailbox notices, and no other connection. */
    method Send(i: nat, data: seq<Byte>) returns (n: U16)
      requires Valid() && i < |tcp.socks|
      modifies tcp.socks, pool.mem
      ensures Valid() && udp.AllContents() == old(udp.AllContents())
      ensures tcp.Views() == old(tcp.Views())[i := T.SendBytes(old(tcp.Views())[i], data)]
      ensures n == T.Accepts(old(tcp.Views())[i], |data|)
    {
      ghost var m := pool.mem[..];
      hide Socket.Valid, T.SendBytes, T.Accepts, Holds;
      n := tcp.SendOn(i, data);
      assert tcp.socks[i].RcvAt() == RingsAt(base, i);
      forall j: nat | j < 4
        ensures udp.Contents(j) == Holds(udp.socks[j], m, MailAt(udp.base, j))
      {
        BoxesUntouched(m, i, j);
      }
    }

    // ----- calls and polls that do not write the pool -----

    /** mn_tcp_recv */
    method Recv(i: nat, out: array<Byte>, cap: U16) returns (n: U16)
      requires Valid() && i < |tcp.socks| && cap <= out.Length && out != pool.mem
      modifies tcp.socks, out
      ensures Valid() && udp.AllContents() == old(udp.AllContents())
      ensures tcp.Views() == old(tcp.Views())[i := T.RecvBytes(old(tcp.Views())[i], cap)]
      ensures n <= out.Length && out[..n] == T.Received(old(tcp.Views())[i], cap)
    {
      hide Socket.Valid, T.RecvBytes, T.Received, Holds;
      n := tcp.RecvFrom(i, out, cap);
    }

    /** mn_tcp_connect */
    method Connect(i: nat, ip: Addr, port: U16, localPort: U16, iss: U32, tick: U16) returns (ok: bool)
      requires Valid() && i < |tcp.socks|
      modifies tcp.socks, tcp.nif`calls, tcp.nif`wire, tcp.nif.txf
      ensures Valid() && udp.AllContents() == old(udp.AllContents()) && ok == (old(tcp.Views())[i].state == T.Closed)
      ensures var r := old(T.Connect(tcp.Views()[i], ip, port, localPort, iss, tick, tcp.nif.answers, tcp.nif.calls));
              tcp.Views() == old(tcp.Views())[i := r.t]
    {
      hide Socket.Valid, T.Connect, Holds, Datagrams;
      ok := tcp.Connect(i, ip, port, localPort, iss, tick);
    }

    /** mn_tcp_listen */
    method ListenOn(i: nat, port: U16) returns (ok: bool)
      requires Valid() && i < |tcp.socks|
      modifies tcp.socks
      ensures Valid() && udp.AllContents() == old(udp.AllContents())
      ensures tcp.Views() == old(tcp.Views())[i := T.ListenOn(old(tcp.Views())[i], port)]
      ensures ok == (old(tcp.Views())[i].state == T.Closed && port != 0)
    {
      hide Socket.Valid, T.ListenOn, Holds;
      ok := tcp.ListenOn(i, port);
    }

    /** mn_tcp_close */
    method CloseDown(i: nat)
      requires Valid() && i < |tcp.socks|
      modifies tcp.socks
      ensures Valid() && udp.AllContents() == old(udp.AllContents())
      ensures tcp.Views() == old(tcp.Views())[i := T.CloseDown(old(tcp.Views())[i])]
    {
      hide Socket.Valid, T.CloseDown, Holds;
      tcp.CloseDown(i);
    }

    /** mn_tcp_abort */
    method Abort(i: nat)
      requires Valid() && i < |tcp.socks|
      modifies tcp.socks, tcp.nif`calls, tcp.nif`wire, tcp.nif.txf
      ensures Valid() && udp.AllContents() == old(udp.AllContents())
      ensures var r := old(T.Abort(tcp.Views()[i], tcp.nif.answers, tcp.nif.calls));
              tcp.Views() == old(tcp.Views())[i := r.t]
    {
      hide Socket.Valid, T.Abort, Holds, Datagrams;
      tcp.Abort(i);
    }

    /** mn_tcp_poll */
    method Poll(tick: U16)
      requires Valid()
      modifies tcp`now, tcp.socks, tcp.nif`calls, tcp.nif`wire, tcp.nif.txf
      ensures Valid() && udp.AllContents() == old(udp.AllContents())
      ensures tcp.Views() == old(PollFirst(tcp.Views(), |tcp.socks|, tick, tcp.nif.ip, tcp.nif.answers, tcp.nif.calls)).socks
    {
      hide Socket.Valid, PollFirst, Holds, Datagrams;
      tcp.Poll(tick);
    }

    /** mn_net_udp_open: no connection notices, and no other mailbox. */
    method OpenUdp(port: U16) returns (s: Byte)
      requires Valid()
      modifies udp`socks
      ensures Valid() && tcp.Views() == old(tcp.Views())
      ensures s < 4 <==> FirstPort(old(udp.socks), port) == 4 && FirstPort(old(udp.socks), 0) < 4
      ensures udp.Ports() == if s < 4 then old(udp.Ports())[s as int := port] else old(udp.Ports())
      ensures udp.AllContents() == if s < 4 then old(udp.AllContents())[s as int := Empty] else old(udp.AllContents())
    {
      hide Socket.Valid, FirstPort;
      s := udp.Open(port);
    }

    /** mn_net_udp_close */
    method CloseUdp(s: Byte)
      requires Valid()
      modifies udp`socks
      ensures Valid() && tcp.Views() == old(tcp.Views())
      ensures udp.Ports() == if s < 4 then old(udp.Ports())[s as int := 0] else old(udp.Ports())
      ensures udp.AllContents() == if s < 4 then old(udp.AllContents())[s as int := Empty] else old(udp.AllContents())
    {
      hide Socket.Valid;
      udp.Close(s);
    }

    /** mn_net_udp_recv */
    method RecvUdp(s: Byte, buf: array<Byte>, cap: U16) returns (got: bool, n: U16, src: Addr, sport: U16)
      requires Valid() && cap <= buf.Length && buf != pool.mem
      modifies udp`socks, buf
      ensures Valid() && tcp.Views() == old(tcp.Views()) && n <= buf.Length
      ensures got == (s < 4 && old(udp.AllContents())[s].Full?)
      ensures got ==>
                var mail := old(udp.AllContents())[s].mail;
                && udp.AllContents() == old(udp.AllContents())[s as int := Empty]
                && buf[..n] == mail.data[..Min(|mail.data|, cap)] && src == mail.src && sport == mail.sport
      ensures !got ==> udp.AllContents() == old(udp.AllContents())
    {
      hide Socket.Valid;
      got, n, src, sport := udp.Recv(s, buf, cap);
    }
  }
}
