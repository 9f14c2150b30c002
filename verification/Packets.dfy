/**
  IPv4, UDP and ICMP packets: what the builders of src/net write passes the validators of
  src/net, field by field.
*/
module Packets {
  import opened Words
  import opened Common
  import opened Checksum

  const IP_HDR: int := 20
  const UDP_HDR: int := 8
  const ICMP_HDR: int := 8
  const ETH_HDR: int := 14
  const PROTO_ICMP: Byte := 1
  const PROTO_UDP: Byte := 17
  const ETHERTYPE_IPV4: seq<Byte> := [8, 0]

  // ----- IPv4 -----

  /** The header before its checksum is stored: version 4, no options, never fragmented, TTL 64. */
  function BlankIp(src: Addr, dst: Addr, proto: Byte, payloadLen: U16, id: U16): (h: seq<Byte>)
    ensures |h| == IP_HDR
  {
    [0x45, 0] + Put16(Wrap16(IP_HDR + payloadLen)) + Put16(id) + [0x40, 0, 64, proto, 0, 0] + src + dst
  }

  function IpHeader(src: Addr, dst: Addr, proto: Byte, payloadLen: U16, id: U16): (h: seq<Byte>)
    ensures |h| == IP_HDR
  {
    var b := BlankIp(src, dst, proto, payloadLen, id);
    WithField(b, 10, ChecksumOf(b))
  }

  function HdrLen(b: seq<Byte>): nat
    requires |b| >= IP_HDR
  {
    b[0] % 16 * 4
  }

  /** mn_ipv4_valid on the bytes available. */
  predicate IpValid(b: seq<Byte>) {
    && |b| >= IP_HDR && b[0] / 16 == 4
    && IP_HDR <= HdrLen(b) <= Field(b, 2) <= |b|
    && Verifies(b[..HdrLen(b)])
  }

  function IpSrc(b: seq<Byte>): Addr
    requires |b| >= IP_HDR
  {
    b[12..16]
  }

  function IpDst(b: seq<Byte>): Addr
    requires |b| >= IP_HDR
  {
    b[16..20]
  }

  function IpPayload(b: seq<Byte>): seq<Byte>
    requires IpValid(b)
  {
    b[HdrLen(b)..Field(b, 2)]
  }

  /** Writes a header in front of `payloadLen` bytes. */
  method BuildIp(pkt: array<Byte>, at: nat, src: Addr, dst: Addr, proto: Byte, payloadLen: U16, id: U16)
    requires at + IP_HDR <= pkt.Length
    modifies pkt
    ensures pkt[at..at + IP_HDR] == IpHeader(src, dst, proto, payloadLen, id)
    ensures forall i :: 0 <= i < pkt.Length && !(at <= i < at + IP_HDR) ==> pkt[i] == old(pkt[i])
  {
    PutBlankIp(pkt, at, src, dst, proto, payloadLen, id);
    hide BlankIp, WordSum, Fold;
    var c := ComputeChecksum(pkt, at, IP_HDR);
    PutField(pkt, at, IP_HDR, 10, c);
  }

  method PutBlankIp(pkt: array<Byte>, at: nat, src: Addr, dst: Addr, proto: Byte, payloadLen: U16, id: U16)
    requires at + IP_HDR <= pkt.Length
    modifies pkt
    ensures pkt[at..at + IP_HDR] == BlankIp(src, dst, proto, payloadLen, id)
    ensures forall i :: 0 <= i < pkt.Length && !(at <= i < at + IP_HDR) ==> pkt[i] == old(pkt[i])
  {
    PutBytes(pkt, at, [0x45, 0] + Put16(Wrap16(IP_HDR + payloadLen)) + Put16(id) + [0x40, 0, 64, proto, 0, 0]);
    ghost var fixed := pkt[..];
    for i := 0 to 4
      invariant forall k :: 0 <= k < pkt.Length ==>
                  pkt[k] == if at + 12 <= k < at + 12 + i then src[k - at - 12]
                            else if at + 16 <= k < at + 16 + i then dst[k - at - 16] else fixed[k]
    {
      pkt[at + 12 + i] := src[i];
      pkt[at + 16 + i] := dst[i];
    }
    assert pkt[at..at + 12] == fixed[at..at + 12];
    assert pkt[at + 12..at + 16] == src && pkt[at + 16..at + 20] == dst;
    assert pkt[at..at + 20] == pkt[at..at + 12] + pkt[at + 12..at + 16] + pkt[at + 16..at + 20];
  }

  /** mn_ipv4_valid */
  method CheckIp(pkt: array<Byte>, at: nat, len: U16) returns (ok: bool)
    requires at + len <= pkt.Length
    ensures ok == IpValid(pkt[at..at + len])
  {
    if len < IP_HDR || pkt[at] / 16 != 4 {
      return false;
    }
    var hl := pkt[at] % 16 * 4;
    var tl := Get16(pkt[at + 2], pkt[at + 3]);
    if hl < IP_HDR || hl > len || tl < hl || tl > len {
      return false;
    }
    ok := CheckValid(pkt, at, hl);
    assert pkt[at..at + hl] == pkt[at..at + len][..hl];
  }

  /** What mn_ipv4_build writes is valid in front of its payload, whatever trails it in the frame,
      and every field reads back. */
  lemma BuiltIpValid(src: Addr, dst: Addr, proto: Byte, payload: seq<Byte>, id: U16, trailer: seq<Byte>)
    requires IP_HDR + |payload| < 0x1_0000
    ensures var b := IpHeader(src, dst, proto, |payload|, id) + payload + trailer;
            && IpValid(b) && IpPayload(b) == payload && IpSrc(b) == src && IpDst(b) == dst
            && b[9] == proto && Field(b, 4) == id
  {
    hide IpHeader, BlankIp, Verifies, Field;
    var h := IpHeader(src, dst, proto, |payload|, id);
    var b := h + payload + trailer;
    HeaderReads(src, dst, proto, |payload|, id);
    Prefixed(h, payload + trailer);
    assert b == h + (payload + trailer);
    assert b[..IP_HDR] == h && b[IP_HDR..IP_HDR + |payload|] == payload;
  }

  /** The fields of a header that mn_ipv4_build writes. */
  lemma HeaderReads(src: Addr, dst: Addr, proto: Byte, payloadLen: U16, id: U16)
    requires IP_HDR + payloadLen < 0x1_0000
    ensures var h := IpHeader(src, dst, proto, payloadLen, id);
            && Verifies(h) && h[0] == 0x45 && h[9] == proto && Field(h, 2) == IP_HDR + payloadLen && Field(h, 4) == id
            && h[12..16] == src && h[16..20] == dst
  {
    var blank := BlankIp(src, dst, proto, payloadLen, id);
    var h := IpHeader(src, dst, proto, payloadLen, id);
    StoredVerifies(blank, 10);
    assert blank[2..4] == Put16(IP_HDR + payloadLen) && blank[4..6] == Put16(id);
    assert blank[12..16] == src && blank[16..20] == dst;
    hide BlankIp, ChecksumOf, Verifies;
    assert forall i :: 0 <= i < 10 ==> h[i] == blank[i];
    assert h[12..16] == blank[12..16] && h[16..20] == blank[16..20];
  }

  /** The fields of a block do not change when something follows it. */
  lemma Prefixed(h: seq<Byte>, rest: seq<Byte>)
    requires |h| == IP_HDR
    ensures var b := h + rest;
            && b[0] == h[0] && b[9] == h[9] && Field(b, 2) == Field(h, 2) && Field(b, 4) == Field(h, 4)
            && b[12..16] == h[12..16] && b[16..20] == h[16..20]
  {
  }

  /** A header one of whose words past the version was changed on the way is taken for valid exactly if
      the change is a multiple of 65535 and a changed length still fits. */
  lemma CorruptHeader(b: seq<Byte>, o: nat, v: U16)
    requires IpValid(b) && o % 2 == 0 && 2 <= o && o + 2 <= HdrLen(b)
    ensures IpValid(WithField(b, o, v)) <==>
              (v - Field(b, o)) % 65535 == 0 && (o == 2 ==> HdrLen(b) <= v <= |b|)
  {
    var n := HdrLen(b);
    var h, c := b[..n], WithField(b, o, v);
    FieldInFront(b, o, v, n);
    OneWordChanged(h, o, v);
    ZeroSum(c[..n]);
    assert c[..n][0] == b[0] != 0;
    hide Verifies, WordSum;
  }

  lemma FieldInFront(b: seq<Byte>, o: nat, v: U16, n: nat)
    requires 2 <= o && o + 2 <= n <= |b|
    ensures WithField(b, o, v)[..n] == WithField(b[..n], o, v) && Field(b[..n], o) == Field(b, o)
    ensures WithField(b, o, v)[0] == b[0]
    ensures Field(WithField(b, o, v), o) == v && (o >= 4 ==> Field(WithField(b, o, v), 2) == Field(b, 2))
  {
  }

  // ----- UDP -----

  function BlankUdp(sport: U16, dport: U16, payload: seq<Byte>): (b: seq<Byte>)
    requires UDP_HDR + |payload| < 0x1_0000
    ensures |b| == UDP_HDR + |payload|
  {
    Put16(sport) + Put16(dport) + Put16(UDP_HDR + |payload|) + [0, 0] + payload
  }

  /** The checksum as stored: zero would mean that there is none. */
  function UdpChecksum(src: Addr, dst: Addr, b: seq<Byte>): U16
    requires |b| < 0x1_0000
  {
    var c := TransportChecksum(src, dst, PROTO_UDP, b);
    if c == 0 then 0xffff else c
  }

  function UdpBytes(src: Addr, dst: Addr, sport: U16, dport: U16, payload: seq<Byte>): (b: seq<Byte>)
    requires UDP_HDR + |payload| < 0x1_0000
    ensures |b| == UDP_HDR + |payload|
  {
    var b := BlankUdp(sport, dport, payload);
    WithField(b, 6, UdpChecksum(src, dst, b))
  }

  /** mn_udp_valid */
  predicate UdpValid(src: Addr, dst: Addr, b: seq<Byte>)
    requires |b| < 0x1_0000
  {
    && |b| >= UDP_HDR && Field(b, 4) == |b|
    && (Field(b, 6) == 0 || TransportChecksum(src, dst, PROTO_UDP, b) == 0)
  }

  /** mn_udp_build: the header in front of a payload that is already in place. */
  method BuildUdp(udp: array<Byte>, at: nat, src: Addr, dst: Addr, sport: U16, dport: U16, payloadLen: U16)
    returns (len: U16)
    requires UDP_HDR + payloadLen < 0x1_0000 && at + UDP_HDR + payloadLen <= udp.Length
    modifies udp
    ensures len == UDP_HDR + payloadLen
    ensures udp[at..at + len] == UdpBytes(src, dst, sport, dport, old(udp[at + UDP_HDR..at + UDP_HDR + payloadLen]))
  {
    len := UDP_HDR + payloadLen;
    ghost var payload := udp[at + UDP_HDR..at + UDP_HDR + payloadLen];
    PutBytes(udp, at, Put16(sport) + Put16(dport) + Put16(len) + [0, 0]);
    assert udp[at + UDP_HDR..at + len] == payload;
    assert udp[at..at + len] == udp[at..at + UDP_HDR] + udp[at + UDP_HDR..at + len];
    hide BlankUdp, TransportChecksum, WithField;
    BlankParts(sport, dport, payload);
    var c := ComputePseudo(src, dst, PROTO_UDP, udp, at, len);
    if c == 0 {
      c := 0xffff;
    }
    PutField(udp, at, len, 6, c);
  }

  lemma BlankParts(sport: U16, dport: U16, payload: seq<Byte>)
    requires UDP_HDR + |payload| < 0x1_0000
    ensures BlankUdp(sport, dport, payload) == (Put16(sport) + Put16(dport) + Put16(UDP_HDR + |payload|) + [0, 0]) + payload
  {
  }

  /** mn_udp_valid on `len` bytes of a buffer. */
  method CheckUdp(src: Addr, dst: Addr, udp: array<Byte>, at: nat, len: U16) returns (ok: bool)
    requires at + len <= udp.Length
    ensures ok == UdpValid(src, dst, udp[at..at + len])
  {
    hide TransportChecksum;
    if len < UDP_HDR || Get16(udp[at + 4], udp[at + 5]) != len {
      return false;
    }
    if Get16(udp[at + 6], udp[at + 7]) == 0 {
      return true;
    }
    var c := ComputePseudo(src, dst, PROTO_UDP, udp, at, len);
    ok := c == 0;
  }

  /** What mn_udp_build writes is valid, carries a checksum, and reads back. */
  lemma BuiltUdpValid(src: Addr, dst: Addr, sport: U16, dport: U16, payload: seq<Byte>)
    requires UDP_HDR + |payload| < 0x1_0000
    ensures var b := UdpBytes(src, dst, sport, dport, payload);
            && UdpValid(src, dst, b) && Field(b, 6) != 0
            && Field(b, 0) == sport && Field(b, 2) == dport && b[UDP_HDR..] == payload
  {
    var blank := BlankUdp(sport, dport, payload);
    var b := UdpBytes(src, dst, sport, dport, payload);
    var h := PseudoHeader(src, dst, PROTO_UDP, |blank|);
    var c := UdpChecksum(src, dst, blank);
    UdpFields(sport, dport, payload, c);
    hide BlankUdp, PseudoHeader, WithField, ChecksumOf, Field;
    PseudoField(src, dst, PROTO_UDP, blank, 6, c);
    if TransportChecksum(src, dst, PROTO_UDP, blank) == 0 {
      StoredOnesVerify(h + blank, 18);
    } else {
      StoredVerifies(h + blank, 18);
    }
  }

  lemma UdpFields(sport: U16, dport: U16, payload: seq<Byte>, c: U16)
    requires UDP_HDR + |payload| < 0x1_0000
    ensures var blank := BlankUdp(sport, dport, payload);
            var b := WithField(blank, 6, c);
            && Field(blank, 6) == 0 && Field(b, 0) == sport && Field(b, 2) == dport && Field(b, 4) == |b|
            && Field(b, 6) == c && b[UDP_HDR..] == payload
  {
    var blank := BlankUdp(sport, dport, payload);
    assert blank[0..2] == Put16(sport) && blank[2..4] == Put16(dport) && blank[4..6] == Put16(UDP_HDR + |payload|);
  }

  /** A valid datagram with a checksum, one of whose words was changed on the way, is taken for valid exactly if
      the change is a multiple of 65535 that leaves the length alone, or erases the checksum. */
  lemma CorruptUdp(src: Addr, dst: Addr, b: seq<Byte>, o: nat, v: U16)
    requires |b| < 0x1_0000 && UdpValid(src, dst, b) && Field(b, 6) != 0 && o % 2 == 0 && o + 2 <= |b|
    ensures UdpValid(src, dst, WithField(b, o, v)) <==>
              (o == 6 && v == 0) || ((v - Field(b, o)) % 65535 == 0 && (o == 4 ==> v == |b|))
  {
    hide TransportChecksum;
    TransportWordChanged(src, dst, PROTO_UDP, b, o, v);
    OtherFields(b, o, v);
    hide Field, WithField;
  }

  /** Without a checksum only the length is checked, and a checksum that appears is believed if it is right. */
  lemma CorruptUnchecked(src: Addr, dst: Addr, b: seq<Byte>, o: nat, v: U16)
    requires |b| < 0x1_0000 && UdpValid(src, dst, b) && Field(b, 6) == 0 && o % 2 == 0 && o + 2 <= |b|
    ensures UdpValid(src, dst, WithField(b, o, v)) <==>
              if o == 4 then v == |b|
              else o == 6 && v != 0 ==> TransportChecksum(src, dst, PROTO_UDP, WithField(b, 6, v)) == 0
  {
    hide TransportChecksum;
    OtherFields(b, o, v);
    hide Field, WithField;
  }

  lemma OtherFields(b: seq<Byte>, o: nat, v: U16)
    requires o % 2 == 0 && o + 2 <= |b| && 8 <= |b|
    ensures Field(WithField(b, o, v), 4) == if o == 4 then v else Field(b, 4)
    ensures Field(WithField(b, o, v), 6) == if o == 6 then v else Field(b, 6)
  {
  }

  // ----- ICMP echo -----

  /** mn_icmp_is_echo_request: a valid ping for our address. */
  predicate EchoRequest(f: seq<Byte>, ourIp: Addr) {
    && |f| >= ETH_HDR + IP_HDR + ICMP_HDR && f[12..14] == ETHERTYPE_IPV4
    && IpValid(f[ETH_HDR..]) && f[ETH_HDR + 9] == PROTO_ICMP && IpDst(f[ETH_HDR..]) == ourIp
    && EchoMessage(IpPayload(f[ETH_HDR..]), 8)
  }

  /** An ICMP echo message of the given type with a good checksum. */
  predicate EchoMessage(m: seq<Byte>, kind: Byte) {
    |m| >= ICMP_HDR && m[0] == kind && m[1] == 0 && Verifies(m)
  }

  /** The request's message turned into a reply: only the type and the checksum change. */
  function ReplyMessage(m: seq<Byte>): (r: seq<Byte>)
    requires |m| >= ICMP_HDR
    ensures |r| == |m|
  {
    var z := WithField(m[0 := 0], 2, 0);
    WithField(z, 2, ChecksumOf(z))
  }

  function EthHeader(dst: Mac, src: Mac): (h: seq<Byte>)
    ensures |h| == ETH_HDR
  {
    dst + src + ETHERTYPE_IPV4
  }

  /** The whole reply frame, back to whoever asked. */
  function EchoReply(f: seq<Byte>, ourMac: Mac, ourIp: Addr): (r: seq<Byte>)
    requires EchoRequest(f, ourIp)
    ensures |r| == ETH_HDR + IP_HDR + |IpPayload(f[ETH_HDR..])|
  {
    var ip := f[ETH_HDR..];
    var m := IpPayload(ip);
    EthHeader(f[6..12], ourMac) + IpHeader(ourIp, IpSrc(ip), PROTO_ICMP, |m|, Field(ip, 4)) + ReplyMessage(m)
  }

  lemma ReplyVerifies(m: seq<Byte>)
    requires |m| >= ICMP_HDR && m[1] == 0
    ensures EchoMessage(ReplyMessage(m), 0) && ReplyMessage(m)[4..] == m[4..]
  {
    var z := WithField(m[0 := 0], 2, 0);
    StoredVerifies(z, 2);
    FieldOnly(m[0 := 0], 2, 0);
    FieldOnly(z, 2, ChecksumOf(z));
    SameEnds(m[0 := 0], z);
    SameEnds(z, ReplyMessage(m));
    hide ChecksumOf, Verifies, WithField, Field;
  }

  lemma SameEnds(a: seq<Byte>, b: seq<Byte>)
    requires 4 <= |a| == |b| && a[..2] == b[..2] && a[4..] == b[4..]
    ensures b[0] == a[0] && b[1] == a[1] && b[4..] == a[4..]
  {
    assert b[0] == b[..2][0] && b[1] == b[..2][1] && a[0] == a[..2][0] && a[1] == a[..2][1];
  }

  /** A valid echo request gets a valid echo reply: addressed to the asker from the address that was
      asked, with good checksums, with the identifier, sequence number and data of the request,
      and no longer than the request's frame. */
  lemma ReplyIsValid(f: seq<Byte>, ourMac: Mac, ourIp: Addr)
    requires EchoRequest(f, ourIp)
    ensures var r := EchoReply(f, ourMac, ourIp);
            && |r| <= |f| && r[..6] == f[6..12] && r[6..12] == ourMac && r[12..14] == ETHERTYPE_IPV4
            && var ip := r[ETH_HDR..];
               && IpValid(ip) && ip[9] == PROTO_ICMP && IpSrc(ip) == ourIp && IpDst(ip) == IpSrc(f[ETH_HDR..])
               && EchoMessage(IpPayload(ip), 0) && IpPayload(ip)[4..] == IpPayload(f[ETH_HDR..])[4..]
  {
    var r, q := EchoReply(f, ourMac, ourIp), f[ETH_HDR..];
    var m := IpPayload(q);
    ReplyVerifies(m);
    BuiltIpValid(ourIp, IpSrc(q), PROTO_ICMP, ReplyMessage(m), Field(q, 4), []);
    hide IpValid, Verifies, ReplyMessage, IpHeader;
    assert r[ETH_HDR..] == IpHeader(ourIp, IpSrc(q), PROTO_ICMP, |m|, Field(q, 4)) + ReplyMessage(m) + [];
  }

  /** A frame is a ping for at most one address. */
  lemma OneAddressee(f: seq<Byte>, a: Addr, b: Addr)
    requires EchoRequest(f, a) && EchoRequest(f, b)
    ensures a == b
  {
    hide IpValid, EchoMessage;
  }

  /** A reply is no request: two hosts never ping one another for ever. */
  lemma NoPingPong(f: seq<Byte>, ourMac: Mac, ourIp: Addr, theirs: Addr)
    requires EchoRequest(f, ourIp)
    ensures !EchoRequest(EchoReply(f, ourMac, ourIp), theirs)
  {
    hide EchoReply, IpValid, Verifies, IpPayload, IpDst;
    ReplyIsValid(f, ourMac, ourIp);
  }

  /** mn_ipv4_addr_eq */
  method SameAddr(data: array<Byte>, at: nat, a: Addr) returns (same: bool)
    requires at + 4 <= data.Length
    ensures same == (data[at..at + 4] == a)
  {
    for i := 0 to 4
      invariant forall k :: 0 <= k < i ==> data[at + k] == a[k]
    {
      if data[at + i] != a[i] {
        assert data[at..at + 4][i] != a[i];
        return false;
      }
    }
    same := true;
  }

  /** mn_icmp_is_echo_request */
  method IsEchoRequest(frame: array<Byte>, len: U16, ourIp: Addr) returns (ok: bool)
    requires len <= frame.Length
    ensures ok == EchoRequest(frame[..len], ourIp)
  {
    ghost var f := frame[..len];
    hide IpValid, Verifies, Field, HdrLen, IpDst, IpPayload;
    if len < ETH_HDR + IP_HDR + ICMP_HDR {
      return false;
    }
    assert f[12..14] == [frame[12], frame[13]];
    if frame[12] != 8 || frame[13] != 0 {
      return false;
    }
    IpFields(f);
    assert frame[ETH_HDR..ETH_HDR + (len - ETH_HDR)] == f[ETH_HDR..];
    var valid := CheckIp(frame, ETH_HDR, len - ETH_HDR);
    if !valid || frame[ETH_HDR + 9] != PROTO_ICMP {
      return false;
    }
    IpBounds(f[ETH_HDR..]);
    var ours := SameAddr(frame, 30, ourIp);
    assert frame[30..34] == f[30..34];
    if !ours {
      return false;
    }
    var hl := frame[ETH_HDR] % 16 * 4;
    var icmp, plen := ETH_HDR + hl, Get16(frame[ETH_HDR + 2], frame[ETH_HDR + 3]) - hl;
    assert frame[icmp..icmp + plen] == f[icmp..icmp + plen];
    hide EchoMessage;
    ok := IsEcho(frame, icmp, plen);
  }

  method IsEcho(frame: array<Byte>, icmp: nat, plen: U16) returns (ok: bool)
    requires icmp + plen <= frame.Length
    ensures ok == EchoMessage(frame[icmp..icmp + plen], 8)
  {
    if plen < ICMP_HDR || frame[icmp] != 8 || frame[icmp + 1] != 0 {
      return false;
    }
    ok := CheckValid(frame, icmp, plen);
    hide Verifies;
  }

  /** The fields of the IPv4 packet in a frame. */
  lemma IpFields(f: seq<Byte>)
    requires |f| >= ETH_HDR + IP_HDR
    ensures var q := f[ETH_HDR..];
            && HdrLen(q) == f[14] % 16 * 4 && Field(q, 2) == Get16(f[16], f[17]) && Field(q, 4) == Get16(f[18], f[19])
            && q[9] == f[ETH_HDR + 9] && IpSrc(q) == f[26..30] && IpDst(q) == f[30..34]
            && (IpValid(q) ==> IpPayload(q) == f[ETH_HDR + HdrLen(q)..ETH_HDR + Field(q, 2)])
  {
    hide Verifies;
  }

  lemma IpBounds(b: seq<Byte>)
    requires IpValid(b)
    ensures |b| >= IP_HDR && IP_HDR <= HdrLen(b) <= Field(b, 2) <= |b|
  {
  }

  /** mn_icmp_build_echo_reply, from a request already checked. */
  method BuildEchoReply(out: array<Byte>, request: array<Byte>, len: U16, ourMac: Mac, ourIp: Addr) returns (n: U16)
    requires len <= request.Length && len <= out.Length && out != request
    requires EchoRequest(request[..len], ourIp)
    modifies out
    ensures n <= len && out[..n] == EchoReply(request[..len], ourMac, ourIp)
  {
    hide IpValid, Verifies, IpHeader, ReplyMessage, EthHeader, EchoRequest, EchoReply, Field, HdrLen, IpSrc,
         IpPayload, EchoMessage, Get16;
    ghost var f := request[..len];
    RequestParts(request, len, ourIp);
    var hl := request[ETH_HDR] % 16 * 4;
    var plen := Get16(request[ETH_HDR + 2], request[ETH_HDR + 3]) - hl;
    PutHeaders(out, request[6..12], ourMac, ourIp, request[26..30], plen,
               Get16(request[ETH_HDR + 4], request[ETH_HDR + 5]));
    ghost var head := out[..ETH_HDR + IP_HDR];
    PutReply(out, request, ETH_HDR + hl, plen);
    n := ETH_HDR + IP_HDR + plen;
    ReplyParts(f, ourMac, ourIp, head, out[ETH_HDR + IP_HDR..n]);
    assert out[..n] == head + out[ETH_HDR + IP_HDR..n];
  }

  /** Where the parts of a request stand. */
  lemma RequestParts(request: array<Byte>, len: nat, ourIp: Addr)
    requires len <= request.Length && EchoRequest(request[..len], ourIp)
    ensures len >= ETH_HDR + IP_HDR
    ensures var f, q, hl := request[..len], request[..len][ETH_HDR..], request[ETH_HDR] % 16 * 4;
            && IpValid(q) && f[6..12] == request[6..12] && IpSrc(q) == request[26..30]
            && Field(q, 4) == Get16(request[ETH_HDR + 4], request[ETH_HDR + 5])
            && ICMP_HDR <= |IpPayload(q)| == Get16(request[ETH_HDR + 2], request[ETH_HDR + 3]) - hl
            && IP_HDR <= hl && ETH_HDR + hl + |IpPayload(q)| <= len
            && IpPayload(q) == request[ETH_HDR + hl..ETH_HDR + hl + |IpPayload(q)|]
  {
    var f := request[..len];
    RequestBounds(f, ourIp);
    IpFields(f);
    hide IpValid, EchoRequest, Field, HdrLen, IpSrc, IpPayload, EchoMessage, Get16;
    assert request[6..12] == f[6..12] && request[26..30] == f[26..30];
  }

  lemma ReplyParts(f: seq<Byte>, ourMac: Mac, ourIp: Addr, head: seq<Byte>, m: seq<Byte>)
    requires EchoRequest(f, ourIp) && |head| == ETH_HDR + IP_HDR
    requires var q := f[ETH_HDR..];
             && head == EthHeader(f[6..12], ourMac) + IpHeader(ourIp, IpSrc(q), PROTO_ICMP, |IpPayload(q)|, Field(q, 4))
             && m == ReplyMessage(IpPayload(q))
    ensures head + m == EchoReply(f, ourMac, ourIp)
  {
    hide EchoRequest, IpHeader, ReplyMessage, EthHeader, IpValid;
    RequestBounds(f, ourIp);
  }

  lemma RequestBounds(f: seq<Byte>, ourIp: Addr)
    requires EchoRequest(f, ourIp)
    ensures |f| >= ETH_HDR + IP_HDR && IpValid(f[ETH_HDR..])
    ensures var q := f[ETH_HDR..]; IP_HDR <= HdrLen(q) <= Field(q, 2) <= |q| && Field(q, 2) - HdrLen(q) >= ICMP_HDR
  {
    hide Verifies;
  }

  method PutEth(out: array<Byte>, dst: Mac, src: Mac)
    requires out.Length >= ETH_HDR
    modifies out
    ensures out[..ETH_HDR] == EthHeader(dst, src)
  {
    forall i | 0 <= i < 6 {
      out[i] := dst[i];
    }
    forall i | 0 <= i < 6 {
      out[6 + i] := src[i];
    }
    out[12], out[13] := 8, 0;
  }

  method PutHeaders(out: array<Byte>, dstMac: Mac, srcMac: Mac, src: Addr, dst: Addr, plen: U16, id: U16)
    requires out.Length >= ETH_HDR + IP_HDR
    modifies out
    ensures out[..ETH_HDR + IP_HDR] == EthHeader(dstMac, srcMac) + IpHeader(src, dst, PROTO_ICMP, plen, id)
  {
    hide EthHeader, IpHeader;
    PutEth(out, dstMac, srcMac);
    ghost var e := out[..ETH_HDR];
    BuildIp(out, ETH_HDR, src, dst, PROTO_ICMP, plen, id);
    assert out[..ETH_HDR] == e;
    assert out[..ETH_HDR + IP_HDR] == out[..ETH_HDR] + out[ETH_HDR..ETH_HDR + IP_HDR];
  }

  /** Same payload, type changed, checksum redone. */
  method PutReply(out: array<Byte>, request: array<Byte>, from: nat, plen: U16)
    requires plen >= ICMP_HDR && from + plen <= request.Length && ETH_HDR + IP_HDR + plen <= out.Length && out != request
    modifies out
    ensures out[ETH_HDR + IP_HDR..ETH_HDR + IP_HDR + plen] == ReplyMessage(request[from..from + plen])
    ensures out[..ETH_HDR + IP_HDR] == old(out[..ETH_HDR + IP_HDR])
  {
    var at := ETH_HDR + IP_HDR;
    ghost var m := request[from..from + plen];
    hide ChecksumOf;
    for i := 0 to plen
      invariant forall k :: 0 <= k < i ==> out[at + k] == m[k]
      invariant forall k :: 0 <= k < at ==> out[k] == old(out[k])
    {
      out[at + i] := request[from + i];
    }
    out[at] := 0;
    assert out[at..at + plen] == m[0 := 0];
    hide WithField, Field;
    PutField(out, at, plen, 2, 0);
    var c := ComputeChecksum(out, at, plen);
    PutField(out, at, plen, 2, c);
  }
}
