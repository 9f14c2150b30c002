/**
  The UDP sockets of src/net/mn_net.c: four ports, each with a mailbox for one datagram in the
  shared pool.
*/
module Mailboxes {
  import opened Words
  import opened Common
  import opened Xmem
  import opened Checksum
  import opened Packets

  const UDP_SOCKETS: int := 4

  /** A datagram as a socket hands it over. */
  datatype Mail = Mail(src: Addr, sport: U16, data: seq<Byte>)

  datatype Slip = Empty | Full(mail: Mail)

  /** One socket: port 0 is closed. */
  datatype Box = Box(port: U16, pending: bool, src: Addr, sport: U16, len: U16, xseg: U16, xoff: U16)

  const CLOSED_BOX: Box := Box(0, false, [0, 0, 0, 0], 0, 0, 0, 0)

  /** Where mailbox i lies for a pool that starts at `base`: the offset is kept in 16 bits. */
  function MailAt(base: U32, i: nat): nat
    requires i < 4
  {
    Address(base / 0x1_0000, Wrap16(base + i * SOCK_BUF))
  }

  /** Two mailboxes never overlap, wherever the pool starts. */
  lemma BoxesApart(base: U32, i: nat, j: nat)
    requires i < j < 4
    ensures MailAt(base, i) + SOCK_BUF <= MailAt(base, j) || MailAt(base, j) + SOCK_BUF <= MailAt(base, i)
  {
  }

  /** The first socket with this port, or the number of sockets. */
  function FirstPort(boxes: seq<Box>, port: U16): (i: nat)
    ensures i <= |boxes| && (forall j :: 0 <= j < i ==> boxes[j].port != port)
    ensures i < |boxes| ==> boxes[i].port == port
  {
    if boxes == [] || boxes[0].port == port then 0 else 1 + FirstPort(boxes[1..], port)
  }

  lemma FirstPortIs(boxes: seq<Box>, port: U16, i: nat)
    requires i <= |boxes| && (forall j :: 0 <= j < i ==> boxes[j].port != port)
    requires i < |boxes| ==> boxes[i].port == port
    ensures FirstPort(boxes, port) == i
  {
  }

  /** What a socket would hand over if its mailbox is at `at` of the memory `m`. */
  function Holds(b: Box, m: seq<Byte>, at: nat): Slip
    requires at + b.len <= |m|
  {
    if b.pending then Full(Mail(b.src, b.sport, m[at..at + b.len])) else Empty
  }

  /** Writing one mailbox leaves the others as they were. */
  lemma OthersHold(boxes: seq<Box>, base: U32, m: seq<Byte>, m': seq<Byte>, i: nat)
    requires i < |boxes| == 4 && forall j :: 0 <= j < 4 ==> boxes[j].len <= SOCK_BUF && MailAt(base, j) + SOCK_BUF <= |m|
    requires SameOutside(m, m', MailAt(base, i), SOCK_BUF)
    ensures forall j :: 0 <= j < 4 && j != i ==> Holds(boxes[j], m', MailAt(base, j)) == Holds(boxes[j], m, MailAt(base, j))
  {
    forall j | 0 <= j < 4 && j != i
      ensures Holds(boxes[j], m', MailAt(base, j)) == Holds(boxes[j], m, MailAt(base, j))
    {
      if j < i {
        BoxesApart(base, j, i);
      } else {
        BoxesApart(base, i, j);
      }
      hide MailAt;
      var at := MailAt(base, j);
      assert m'[at..at + boxes[j].len] == m[at..at + boxes[j].len];
    }
  }

  class Udp {
    const pool: Pool
    var socks: seq<Box>
    /** Where the mailboxes were put by the last mn_net_set_pool. */
    ghost var base: U32

    /** Four sockets, their mailboxes in the pool where mn_net_set_pool put them. */
    ghost predicate Valid()
      reads this
    {
      && |socks| == UDP_SOCKETS
      && forall i :: 0 <= i < |socks| ==>
           && socks[i].len <= SOCK_BUF && Address(socks[i].xseg, socks[i].xoff) == MailAt(base, i)
           && MailAt(base, i) + SOCK_BUF <= pool.mem.Length
    }

    /** What socket i would hand over. */
    ghost function Contents(i: nat): Slip
      reads this, pool.mem
      requires Valid() && i < |socks|
    {
      Holds(socks[i], pool.mem[..], MailAt(base, i))
    }

    ghost function Ports(): (p: seq<U16>)
      reads this
      ensures |p| == |socks|
    {
      seq(|socks|, i requires 0 <= i < |socks| reads this => socks[i].port)
    }

    ghost function AllContents(): (c: seq<Slip>)
      reads this, pool.mem
      requires Valid()
      ensures |c| == |socks|
    {
      seq(|socks|, i requires 0 <= i < |socks| && Valid() reads this, pool.mem => Contents(i))
    }

    /** mn_net_init followed by mn_net_set_pool. */
    constructor (pool: Pool, at: U32)
      requires forall i: nat :: i < 4 ==> MailAt(at, i) + SOCK_BUF <= pool.mem.Length
      ensures Valid() && this.pool == pool && base == at
      ensures forall i :: 0 <= i < |socks| ==> Contents(i) == Empty && socks[i].port == 0
    {
      this.pool := pool;
      base := at;
      socks := [CLOSED_BOX, CLOSED_BOX, CLOSED_BOX, CLOSED_BOX];
      new;
      SetPool(at);
    }

    /** mn_net_set_pool */
    method SetPool(at: U32)
      requires |socks| == UDP_SOCKETS && forall i :: 0 <= i < |socks| ==> socks[i].len <= SOCK_BUF
      requires forall i: nat :: i < 4 ==> MailAt(at, i) + SOCK_BUF <= pool.mem.Length
      modifies this
      ensures Valid() && base == at
      ensures forall i :: 0 <= i < 4 ==> socks[i] == old(socks)[i].(xseg := socks[i].xseg, xoff := socks[i].xoff)
    {
      base := at;
      for i := 0 to 4
        invariant |socks| == UDP_SOCKETS && base == at
        invariant forall j :: 0 <= j < 4 ==> socks[j] == old(socks)[j].(xseg := socks[j].xseg, xoff := socks[j].xoff)
        invariant forall j :: 0 <= j < i ==> Address(socks[j].xseg, socks[j].xoff) == MailAt(at, j)
      {
        socks := socks[i := socks[i].(xseg := at / 0x1_0000, xoff := Wrap16(at + i * SOCK_BUF))];
      }
    }

    method Find(port: U16) returns (i: nat)
      ensures i == FirstPort(socks, port)
    {
      i := 0;
      while i < |socks| && socks[i].port != port
        invariant i <= |socks|
        invariant forall j :: 0 <= j < i ==> socks[j].port != port
      {
        i := i + 1;
      }
      FirstPortIs(socks, port, i);
    }

    /** mn_net_udp_open: a free socket for a port that no socket has; 0xff if there is none. */
    method Open(port: U16) returns (s: Byte)
      requires Valid()
      modifies this`socks
      ensures Valid()
      ensures var taken, free := FirstPort(old(socks), port), FirstPort(old(socks), 0);
              if taken < 4 || free == 4 then s == 0xff && socks == old(socks)
              else s == free && socks == old(socks)[free := old(socks)[free].(port := port, pending := false)]
    {
      var taken := Find(port);
      if taken < |socks| {
        return 0xff;
      }
      var free := Find(0);
      if free == |socks| {
        return 0xff;
      }
      socks := socks[free := socks[free].(port := port, pending := false)];
      s := free;
    }

    /** mn_net_udp_close */
    method Close(s: Byte)
      requires Valid()
      modifies this`socks
      ensures Valid()
      ensures socks == if s < 4 then old(socks)[s as int := old(socks)[s].(port := 0, pending := false)] else old(socks)
    {
      if s < UDP_SOCKETS {
        socks := socks[s as int := socks[s].(port := 0, pending := false)];
      }
    }

    /** deliver_udp, past the checks of the datagram: the first socket with the port takes it, unless
        its mailbox is full or the datagram is too long. */
    method Deliver(port: U16, mail: Mail) returns (taken: bool)
      requires Valid()
      modifies this`socks, pool.mem
      ensures Valid() && Ports() == old(Ports())
      ensures var i := FirstPort(old(socks), port);
              && taken == (i < 4 && !old(socks)[i].pending && |mail.data| <= SOCK_BUF)
              && AllContents() == (if taken then old(AllContents())[i := Full(mail)] else old(AllContents()))
              && (taken ==> SameOutside(old(pool.mem[..]), pool.mem[..], MailAt(base, i), SOCK_BUF))
              && (!taken ==> unchanged(pool.mem))
    {
      hide FirstPort, MailAt;
      ghost var boxes, m := socks, pool.mem[..];
      var i := Find(port);
      taken := i < |socks| && !socks[i].pending && |mail.data| <= SOCK_BUF;
      if taken {
        pool.Write(socks[i].xseg, socks[i].xoff, mail.data);
        socks := socks[i := socks[i].(len := |mail.data|, src := mail.src, sport := mail.sport, pending := true)];
        OthersHold(boxes, base, m, pool.mem[..], i);
        assert pool.mem[MailAt(base, i)..MailAt(base, i) + |mail.data|] == mail.data;
      }
    }

    /** deliver_udp: what fails its length or checksum is dropped; the rest goes to Deliver. */
    method DeliverUdp(src: Addr, dst: Addr, udp: array<Byte>, at: nat, len: U16) returns (taken: bool)
      requires Valid() && at + len <= udp.Length && udp != pool.mem
      modifies this`socks, pool.mem
      ensures Valid() && Ports() == old(Ports())
      ensures var b := udp[at..at + len];
              if !UdpValid(src, dst, b) then !taken && socks == old(socks) && unchanged(pool.mem)
              else
                var i, mail := FirstPort(old(socks), Field(b, 2)), Mail(src, Field(b, 0), b[UDP_HDR..]);
                && taken == (i < 4 && !old(socks)[i].pending && |mail.data| <= SOCK_BUF)
                && AllContents() == (if taken then old(AllContents())[i := Full(mail)] else old(AllContents()))
                && (taken ==> SameOutside(old(pool.mem[..]), pool.mem[..], MailAt(base, i), SOCK_BUF))
                && (!taken ==> unchanged(pool.mem))
    {
      hide FirstPort, MailAt, UdpValid, TransportChecksum;
      var ok := CheckUdp(src, dst, udp, at, len);
      if !ok {
        return false;
      }
      ghost var b := udp[at..at + len];
      HeaderFits(src, dst, b);
      assert udp[at + UDP_HDR..at + len] == b[UDP_HDR..];
      taken := Deliver(Get16(udp[at + 2], udp[at + 3]),
                       Mail(src, Get16(udp[at], udp[at + 1]), udp[at + UDP_HDR..at + len]));
    }

    static lemma HeaderFits(src: Addr, dst: Addr, b: seq<Byte>)
      requires |b| < 0x1_0000 && UdpValid(src, dst, b)
      ensures |b| >= UDP_HDR
    {
      hide TransportChecksum;
    }

    /** mn_net_udp_recv: hands over the waiting datagram, as much as fits, and empties the mailbox. */
    method Recv(s: Byte, buf: array<Byte>, cap: U16) returns (got: bool, n: U16, src: Addr, sport: U16)
      requires Valid() && cap <= buf.Length && buf != pool.mem
      modifies this`socks, buf
      ensures Valid() && Ports() == old(Ports()) && n <= buf.Length
      ensures got == (s < 4 && old(socks)[s].pending)
      ensures got ==>
                var mail := old(Contents(s)).mail;
                && AllContents() == old(AllContents())[s as int := Empty]
                && n == Min(|mail.data|, cap) && buf[..n] == mail.data[..n] && src == mail.src && sport == mail.sport
      ensures !got ==> socks == old(socks) && buf[..] == old(buf[..])
    {
      got, n, src, sport := false, 0, [0, 0, 0, 0], 0;
      if s < UDP_SOCKETS && socks[s].pending {
        var k := socks[s];
        n := Min(k.len, cap);
        pool.Read(buf, 0, k.xseg, k.xoff, n);
        socks := socks[s as int := k.(pending := false)];
        got, src, sport := true, k.src, k.sport;
      }
    }
  }
}
