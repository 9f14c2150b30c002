/**
  The two-step transmit of src/net/mn_net.c as the transport sees it: a transmit buffer, and a
  link whose answers are arbitrary.  IPv4 and Ethernet headers are built by other modules.
*/
module NetLink {
  import opened Words
  import opened Common
  import opened Checksum
  import opened Tcp
  import opened TcpCodec

  const MAX_FRAME: nat := 1518
  /** Ethernet and IPv4 headers come before the transport's bytes. */
  const TX_OFFSET: nat := 34

  /** An IPv4 payload handed to the link, and where it goes. */
  datatype Datagram = Datagram(dst: Addr, payload: seq<Byte>)

  class Nif {
    /** What the k-th transmission attempt is answered with. */
    const answers: Link
    const txf: array<Byte>
    var ip: Addr
    var calls: nat
    /** Everything the link has accepted, in order. */
    var wire: seq<Datagram>

    constructor (answers: Link, ip: Addr)
      ensures fresh(txf) && txf.Length == MAX_FRAME && this.answers == answers && this.ip == ip
      ensures calls == 0 && wire == []
    {
      this.answers := answers;
      this.ip := ip;
      txf := new Byte[MAX_FRAME];
      calls, wire := 0, [];
    }

    /** mn_net_tx_begin: false while the next hop is being resolved; that attempt is over then. */
    method TxBegin() returns (ok: bool)
      modifies this`calls
      ensures ok <==> answers(old(calls)) != Pending
      ensures calls == if ok then old(calls) else old(calls) + 1
    {
      ok := answers(calls) != Pending;
      if !ok {
        calls := calls + 1;
      }
    }

    /** mn_net_tx_send: offers `len` bytes of the buffer to the link. */
    method TxSend(dst: Addr, len: nat) returns (r: Outcome)
      requires answers(calls) != Pending && TX_OFFSET + len <= txf.Length
      modifies this`calls, this`wire
      ensures r == answers(old(calls)) && calls == old(calls) + 1
      ensures wire == if r == Ok then old(wire) + [Datagram(dst, txf[TX_OFFSET..TX_OFFSET + len])] else old(wire)
    {
      r := answers(calls);
      calls := calls + 1;
      if r == Ok {
        wire := wire + [Datagram(dst, txf[TX_OFFSET..TX_OFFSET + len])];
      }
    }
  }

  /** The bytes of a segment; every segment a socket builds is encodable. */
  function Bytes(src: Addr, dst: Addr, s: Segment): seq<Byte> {
    if Encodable(s) then Encode(src, dst, s) else []
  }

  /** The datagrams of a sequence of segments to one peer. */
  function Datagrams(src: Addr, dst: Addr, sent: seq<Segment>): (d: seq<Datagram>)
    ensures |d| == |sent|
  {
    seq(|sent|, i requires 0 <= i < |sent| => Datagram(dst, Bytes(src, dst, sent[i])))
  }

  lemma BytesSealed(src: Addr, dst: Addr, s: Segment)
    requires Encodable(s)
    ensures |Blank(s)| == HDR_LEN + |s.opts| + |s.data| < 0x1_0000
    ensures Bytes(src, dst, s) == WithField(Blank(s), 16, TransportChecksum(src, dst, PROTO_TCP, Blank(s)))
  {
  }

  lemma NoDatagrams(w: seq<Datagram>, src: Addr, dst: Addr)
    ensures w + Datagrams(src, dst, []) == w
  {
  }

  lemma DatagramsAppend(src: Addr, dst: Addr, a: seq<Segment>, b: seq<Segment>)
    ensures Datagrams(src, dst, a + b) == Datagrams(src, dst, a) + Datagrams(src, dst, b)
  {
  }

  /** Writes the twenty header bytes of a segment, checksum zero. */
  method PutHeader(b: array<Byte>, at: nat, s: Segment)
    requires Encodable(s) && at + HDR_LEN <= b.Length
    modifies b
    ensures b[at..at + HDR_LEN] == Header(s)
    ensures forall i :: 0 <= i < b.Length && !(at <= i < at + HDR_LEN) ==> b[i] == old(b[i])
  {
    hide Encodable, Header;
    PutBytes(b, at, Put16(s.sport) + Put16(s.dport) + Put32(s.seqno) + Put32(s.ackno));
    ghost var front := b[at..at + 12];
    HeaderParts(s);
    PutBytes(b, at + 12, [(HDR_LEN + |s.opts|) / 4 * 16, FlagByte(s.fl)] + Put16(s.wnd) + [0, 0, 0, 0]);
    assert b[at..at + 12] == front;
    assert b[at..at + HDR_LEN] == b[at..at + 12] + b[at + 12..at + HDR_LEN];
  }

  lemma HeaderParts(s: Segment)
    requires Encodable(s)
    ensures (HDR_LEN + |s.opts|) / 4 * 16 < 256
    ensures Header(s) == (Put16(s.sport) + Put16(s.dport) + Put32(s.seqno) + Put32(s.ackno))
                         + ([(HDR_LEN + |s.opts|) / 4 * 16, FlagByte(s.fl)] + Put16(s.wnd) + [0, 0, 0, 0])
  {
    hide Put16, Put32;
  }

  /** Computes and stores the checksum of the segment of `len` bytes in the transmit buffer. */
  method Seal(b: array<Byte>, src: Addr, dst: Addr, len: U16)
    requires HDR_LEN <= len && TX_OFFSET + len <= b.Length
    modifies b
    ensures var s := old(b[TX_OFFSET..TX_OFFSET + len]);
            b[TX_OFFSET..TX_OFFSET + len] == WithField(s, 16, TransportChecksum(src, dst, PROTO_TCP, s))
  {
    var c := ComputePseudo(src, dst, PROTO_TCP, b, TX_OFFSET, len);
    PutField(b, TX_OFFSET, len, 16, c);
    hide TransportChecksum;
  }
}
