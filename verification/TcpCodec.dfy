/**
  The bytes of a TCP segment: what `emit` writes and what mn_tcp_input reads back.
*/
module TcpCodec {
  import opened Words
  import opened Common
  import opened Checksum
  import opened Tcp

  const HDR_LEN: nat := 20
  const PROTO_TCP: Byte := 6

  function Bit(b: bool, weight: Byte): Byte { if b then weight else 0 }

  function FlagByte(f: Flags): Byte {
    Bit(f.fin, 1) + Bit(f.syn, 2) + Bit(f.rst, 4) + Bit(f.psh, 8) + Bit(f.ack, 16)
  }

  function FlagsOf(b: Byte): Flags {
    Flags(b % 2 == 1, b / 2 % 2 == 1, b / 4 % 2 == 1, b / 8 % 2 == 1, b / 16 % 2 == 1)
  }

  lemma FlagsRoundTrip(f: Flags)
    ensures FlagsOf(FlagByte(f)) == f
  {
  }

  /** A segment that fits the header's own limits: whole words of options, at most ten of them. */
  predicate Encodable(s: Segment) {
    |s.opts| % 4 == 0 && |s.opts| <= 40 && HDR_LEN + |s.opts| + |s.data| < 0x1_0000
  }

  /** The header with a zero checksum, without options. */
  function Header(s: Segment): (h: seq<Byte>)
    requires Encodable(s)
    ensures |h| == HDR_LEN
  {
    Put16(s.sport) + Put16(s.dport) + Put32(s.seqno) + Put32(s.ackno)
    + [(HDR_LEN + |s.opts|) / 4 * 16, FlagByte(s.fl)] + Put16(s.wnd) + [0, 0, 0, 0]
  }

  function Blank(s: Segment): (b: seq<Byte>)
    requires Encodable(s)
    ensures |b| == HDR_LEN + |s.opts| + |s.data|
  {
    Header(s) + s.opts + s.data
  }

  /** The header does not depend on the data. */
  lemma HeaderOnly(s: Segment, head: Segment)
    requires Encodable(s) && head == s.(data := [])
    ensures Encodable(head) && Header(head) == Header(s) && Blank(s) == Header(head) + head.opts + s.data
  {
  }

  function Encode(src: Addr, dst: Addr, s: Segment): (b: seq<Byte>)
    requires Encodable(s)
    ensures |b| == HDR_LEN + |s.opts| + |s.data|
  {
    WithField(Blank(s), 16, TransportChecksum(src, dst, PROTO_TCP, Blank(s)))
  }

  /** mn_tcp_input's reading of a segment; None where it drops it. */
  function Decode(src: Addr, dst: Addr, b: seq<Byte>): Option<Segment>
    requires |b| < 0x1_0000
  {
    if |b| < HDR_LEN || TransportChecksum(src, dst, PROTO_TCP, b) != 0 then None
    else
      var hlen := b[12] / 16 * 4;
      if hlen < HDR_LEN || hlen > |b| then None
      else Some(Segment(Field(b, 0), Field(b, 2), Get32(b[4..8]), Get32(b[8..12]), FlagsOf(b[13]),
                        Field(b, 14), b[HDR_LEN..hlen], b[hlen..]))
  }

  /** Every segment `emit` builds passes the receiver's checksum test. */
  lemma EncodedVerifies(src: Addr, dst: Addr, s: Segment)
    requires Encodable(s)
    ensures TransportChecksum(src, dst, PROTO_TCP, Encode(src, dst, s)) == 0
  {
    var b := Blank(s);
    var h := PseudoHeader(src, dst, PROTO_TCP, |b|);
    PseudoField(src, dst, PROTO_TCP, b, 16, ChecksumOf(h + b));
    assert b[16] == 0 && b[17] == 0;
    StoredVerifies(h + b, 28);
  }

  /** What mn_tcp_input reads is what `emit` wrote. */
  lemma RoundTrip(src: Addr, dst: Addr, s: Segment)
    requires Encodable(s)
    ensures Decode(src, dst, Encode(src, dst, s)) == Some(s)
  {
    hide Header, Blank, Encode, TransportChecksum, FlagByte, FlagsOf, Get32, Get16;
    EncodedVerifies(src, dst, s);
    HeaderReads(s);
    EncodeParts(src, dst, s);
    var e, h := Encode(src, dst, s), Header(s);
    assert forall i :: 0 <= i < 16 ==> e[i] == e[..16][i] == h[..16][i] == h[i];
    assert e[4..8] == h[4..8] && e[8..12] == h[8..12];
  }

  lemma HeaderReads(s: Segment)
    requires Encodable(s)
    ensures var h := Header(s);
            && Field(h, 0) == s.sport && Field(h, 2) == s.dport && Get32(h[4..8]) == s.seqno && Get32(h[8..12]) == s.ackno
            && h[12] == (HDR_LEN + |s.opts|) / 4 * 16 && FlagsOf(h[13]) == s.fl && Field(h, 14) == s.wnd
  {
    FlagsRoundTrip(s.fl);
    var h := Header(s);
    assert h[4..8] == Put32(s.seqno) && h[8..12] == Put32(s.ackno);
    assert h[0..2] == Put16(s.sport) && h[2..4] == Put16(s.dport) && h[14..16] == Put16(s.wnd);
  }

  /** The checksum is stored outside every other field. */
  lemma EncodeParts(src: Addr, dst: Addr, s: Segment)
    requires Encodable(s)
    ensures var e := Encode(src, dst, s);
            && e[..16] == Header(s)[..16] && e[HDR_LEN..HDR_LEN + |s.opts|] == s.opts && e[HDR_LEN + |s.opts|..] == s.data
  {
    hide Header, TransportChecksum;
    var b, e := Blank(s), Encode(src, dst, s);
    assert e[..16] == b[..16] && e[18..] == b[18..];
    assert e[HDR_LEN..] == e[18..][2..] == b[18..][2..] == b[HDR_LEN..];
    assert b[HDR_LEN..] == s.opts + s.data;
  }

  /** A segment one of whose aligned words was changed on the way is read by mn_tcp_input exactly if the change
      is a multiple of 65535 and a changed data offset still fits; everything else is dropped. */
  lemma CorruptionDropped(src: Addr, dst: Addr, s: Segment, o: nat, v: U16)
    requires Encodable(s) && o % 2 == 0 && o + 2 <= HDR_LEN + |s.opts| + |s.data|
    ensures var e := Encode(src, dst, s);
            Decode(src, dst, WithField(e, o, v)).Some? <==>
              (v - Field(e, o)) % 65535 == 0 && (o == 12 ==> HDR_LEN <= v / 4096 * 4 <= |e|)
  {
    hide Field, TransportChecksum, Encode, Blank, Header, FlagsOf, Get32;
    var e := Encode(src, dst, s);
    EncodedVerifies(src, dst, s);
    TransportWordChanged(src, dst, PROTO_TCP, e, o, v);
    OffsetByte(src, dst, s);
    OffsetOf(e, o, v);
    hide WithField;
  }

  /** The data offset of what `emit` builds fits. */
  lemma OffsetByte(src: Addr, dst: Addr, s: Segment)
    requires Encodable(s)
    ensures var e := Encode(src, dst, s); |e| >= HDR_LEN && HDR_LEN <= e[12] / 16 * 4 <= |e|
  {
    hide TransportChecksum, Field, Get32, FlagsOf;
    RoundTrip(src, dst, s);
    hide Encode, Blank;
  }

  lemma OffsetOf(e: seq<Byte>, o: nat, v: U16)
    requires |e| >= HDR_LEN && o % 2 == 0 && o + 2 <= |e|
    ensures WithField(e, o, v)[12] == if o == 12 then v / 256 else e[12]
    ensures v / 256 / 16 == v / 4096
  {
  }

  /** The option our SYNs carry is understood as an MSS of 1460. */
  lemma OurMss(mss: U16)
    ensures TakeMss(MSS_OPTION, mss) == MSS
  {
    assert ScanMss(MSS_OPTION, 4, 1460) == 1460;
    assert ScanMss(MSS_OPTION, 0, mss) == ScanMss(MSS_OPTION, 4, 1460);
  }

  // ----- options -----

  /** A TCP option: no-operation, or a kind with its data. */
  datatype TcpOpt = Nop | Opt(kind: Byte, data: seq<Byte>)

  predicate GoodOpt(x: TcpOpt) { x.Opt? ==> x.kind >= 2 && |x.data| <= 253 }

  predicate GoodOpts(xs: seq<TcpOpt>) { forall i :: 0 <= i < |xs| ==> GoodOpt(xs[i]) }

  function OptBytes(x: TcpOpt): (b: seq<Byte>)
    requires GoodOpt(x)
    ensures |b| > 0
  {
    if x.Nop? then [1] else [x.kind, |x.data| + 2] + x.data
  }

  function OptsBytes(xs: seq<TcpOpt>): seq<Byte>
    requires GoodOpts(xs)
  {
    if xs == [] then [] else OptBytes(xs[0]) + OptsBytes(xs[1..])
  }

  /** The MSS after one option. */
  function MssAfter(x: TcpOpt, mss: U16): U16 {
    if x.Opt? && x.kind == 2 && |x.data| == 2 then Get16(x.data[0], x.data[1]) else mss
  }

  /** The last MSS option decides. */
  function LastMss(xs: seq<TcpOpt>, mss: U16): U16 {
    if xs == [] then mss else LastMss(xs[1..], MssAfter(xs[0], mss))
  }

  /** take_mss understands every well-formed option list, padded with ends of options or not: it takes
      the last MSS option, and no more than 1460. */
  lemma {:induction false} MssRead(b: seq<Byte>, o: nat, xs: seq<TcpOpt>, mss: U16)
    requires GoodOpts(xs) && o + |OptsBytes(xs)| <= |b| && b[o..o + |OptsBytes(xs)|] == OptsBytes(xs)
    requires o + |OptsBytes(xs)| < |b| ==> b[o + |OptsBytes(xs)|] == 0
    ensures ScanMss(b, o, mss) == LastMss(xs, mss)
    decreases |xs|
  {
    hide ScanMss, OptBytes, Get16;
    if xs == [] {
      NoOpts(b, o, mss);
    } else {
      var s, rest := OptBytes(xs[0]), OptsBytes(xs[1..]);
      Halves(b, o, s, rest);
      OneOpt(b, o, xs[0], mss);
      MssRead(b, o + |s|, xs[1..], MssAfter(xs[0], mss));
    }
  }

  lemma NoOpts(b: seq<Byte>, o: nat, mss: U16)
    requires o < |b| ==> b[o] == 0
    ensures ScanMss(b, o, mss) == mss
  {
  }

  lemma OneOpt(b: seq<Byte>, o: nat, x: TcpOpt, mss: U16)
    requires GoodOpt(x) && o + |OptBytes(x)| <= |b| && b[o..o + |OptBytes(x)|] == OptBytes(x)
    ensures ScanMss(b, o, mss) == ScanMss(b, o + |OptBytes(x)|, MssAfter(x, mss))
  {
    hide Get16;
    var s := OptBytes(x);
    assert b[o] == b[o..o + |s|][0] == s[0];
    if x.Opt? {
      assert b[o + 1] == b[o..o + |s|][1] == |x.data| + 2;
      if |x.data| == 2 {
        assert b[o + 2] == b[o..o + |s|][2] == x.data[0] && b[o + 3] == b[o..o + |s|][3] == x.data[1];
      }
    }
  }
}
