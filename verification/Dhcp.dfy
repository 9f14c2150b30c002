/**
  The DHCP client of src/net/mn_dhcp.c as a machine on values: one function per C function,
  same branches, same constants.
*/
module Dhcp {
  import opened Words
  import opened Common
  import opened Checksum
  import opened Packets

  const MSG_DISCOVER: Byte := 1
  const MSG_OFFER: Byte := 2
  const MSG_REQUEST: Byte := 3
  const MSG_ACK: Byte := 5
  const MSG_NAK: Byte := 6

  const OPT_MASK: Byte := 1
  const OPT_ROUTER: Byte := 3
  const OPT_DNS: Byte := 6
  const OPT_REQ_IP: Byte := 50
  const OPT_LEASE: Byte := 51
  const OPT_OVERLOAD: Byte := 52
  const OPT_MSG_TYPE: Byte := 53
  const OPT_SERVER_ID: Byte := 54
  const OPT_PARAM_REQ: Byte := 55
  const OPT_END: Byte := 255

  const BOOTP_LEN: nat := 236
  const OPTIONS_AT: nat := 240
  const MIN_LEN: nat := 300
  const OFF_SNAME: nat := 44
  const OFF_FILE: nat := 108

  const RETRY_TICKS: int := 200
  const MAX_TRIES: int := 5
  const LEASE_FOREVER_S: int := 3888000
  const NO_SOCKET: Byte := 0xff

  const COOKIE: Addr := [0x63, 0x82, 0x53, 0x63]
  const ZERO: Addr := [0, 0, 0, 0]
  const BROADCAST: Addr := [255, 255, 255, 255]

  datatype State = Idle | Selecting | Requesting | Bound | GivenUp

  /** While bound. */
  datatype Phase = InForce | Renewing | Rebinding

  /** The minute clock: ticks, seconds and minutes since the grant, and the tick last seen. */
  datatype Clock = Clock(last: U16, acc: Byte, sec: Byte, age: U16)

  /** The lease, and when to renew and to rebind, in minutes; t1 is 0 for a lease without expiry. */
  datatype Terms = Terms(lease: U16, t1: U16, t2: U16)

  /** What the options of a message fill in. */
  datatype Params = Params(serverId: Addr, mask: Addr, gw: Addr, dns: Addr, leaseS: U32)

  datatype Client = Client(
    state: State, sock: Byte, xid: Addr, offered: Addr, params: Params,
    phase: Phase, clock: Clock, terms: Terms, next: U16,
    sentAt: U16, tries: Byte, pending: bool)

  datatype Host = Host(ip: Addr, mask: Addr, gw: Addr)

  const UNCONFIGURED: Host := Host(ZERO, ZERO, ZERO)

  const NO_PARAMS: Params := Params(ZERO, ZERO, ZERO, ZERO, 0)

  /** The client as mn_api_init leaves it. */
  const INITIAL: Client :=
    Client(Idle, NO_SOCKET, ZERO, ZERO, NO_PARAMS, InForce, Clock(0, 0, 0, 0), Terms(0, 0, 0), 0, 0, 0, false)

  datatype Answer = Refused | Accepted | Pending

  /** What fits a mailbox. */
  type Datagram = m: seq<Byte> | |m| <= SOCK_BUF

  /** What one call meets: the link's answer to a send, the result of opening the socket, and the
      datagram that waits in its mailbox. */
  datatype World = World(mac: Mac, answer: Answer, socket: Byte, mail: Option<Datagram>)

  datatype Sent = Sent(dst: Addr, message: seq<Byte>)

  /** The client and the host's address after a call, what was sent, and whether a lease was granted. */
  datatype Step = Step(c: Client, host: Host, sent: seq<Sent>, granted: bool)

  // ----- options -----

  /** One option, or a pad byte. */
  datatype Opt = Pad | Opt(code: Byte, data: seq<Byte>)

  predicate GoodOpt(x: Opt) { x.Opt? ==> x.code != 0 && x.code != OPT_END && |x.data| < 256 }

  predicate GoodOpts(xs: seq<Opt>) { forall i :: 0 <= i < |xs| ==> GoodOpt(xs[i]) }

  function OptBytes(x: Opt): seq<Byte>
    requires GoodOpt(x)
  {
    if x.Pad? then [0] else [x.code, |x.data|] + x.data
  }

  function OptsBytes(xs: seq<Opt>): seq<Byte>
    requires GoodOpts(xs)
  {
    if xs == [] then [] else OptBytes(xs[0]) + OptsBytes(xs[1..])
  }

  /** What a walk has found: the parameters, the message type and the overload flags. */
  datatype Found = Found(p: Params, kind: Byte, overload: Byte)

  function StoreParam(p: Params, code: Byte, data: seq<Byte>): Params {
    if |data| < 4 then p
    else if code == OPT_MASK then p.(mask := data[..4])
    else if code == OPT_ROUTER then p.(gw := data[..4])
    else if code == OPT_DNS then p.(dns := data[..4])
    else if code == OPT_SERVER_ID then p.(serverId := data[..4])
    else if code == OPT_LEASE then p.(leaseS := Get32(data[..4]))
    else p
  }

  function Store(f: Found, code: Byte, data: seq<Byte>): Found {
    if code == OPT_MSG_TYPE && |data| >= 1 then f.(kind := data[0])
    else if code == OPT_OVERLOAD && |data| >= 1 then f.(overload := data[0])
    else f.(p := StoreParam(f.p, code, data))
  }

  /** walk: one option area of a message. */
  function Walk(m: seq<Byte>, o: nat, end: nat, f: Found): Found
    requires end <= |m|
    decreases end - o
  {
    if o >= end || m[o] == OPT_END then f
    else if m[o] == 0 then Walk(m, o + 1, end, f)
    else if o + 1 >= end || o + 2 + m[o + 1] > end then f
    else Walk(m, o + 2 + m[o + 1], end, Store(f, m[o], m[o + 2..o + 2 + m[o + 1]]))
  }

  function StoreAll(f: Found, xs: seq<Opt>): Found
    decreases |xs|
  {
    if xs == [] then f
    else StoreAll(if xs[0].Pad? then f else Store(f, xs[0].code, xs[0].data), xs[1..])
  }

  /** A well-formed option area, closed by an end option or by its own end, is stored option by option. */
  lemma {:induction false} WalkStores(m: seq<Byte>, o: nat, end: nat, xs: seq<Opt>, f: Found)
    requires GoodOpts(xs) && o + |OptsBytes(xs)| <= end <= |m| && m[o..o + |OptsBytes(xs)|] == OptsBytes(xs)
    requires o + |OptsBytes(xs)| < end ==> m[o + |OptsBytes(xs)|] == OPT_END
    ensures Walk(m, o, end, f) == StoreAll(f, xs)
    decreases |xs|
  {
    hide Store, OptBytes;
    if xs != [] {
      hide Walk;
      var b, rest := OptBytes(xs[0]), OptsBytes(xs[1..]);
      var f' := if xs[0].Pad? then f else Store(f, xs[0].code, xs[0].data);
      Halves(m, o, b, rest);
      OneOption(m, o, end, xs[0], f);
      WalkStores(m, o + |b|, end, xs[1..], f');
    }
  }

  lemma OneOption(m: seq<Byte>, o: nat, end: nat, x: Opt, f: Found)
    requires GoodOpt(x) && o + |OptBytes(x)| <= end <= |m| && m[o..o + |OptBytes(x)|] == OptBytes(x)
    ensures Walk(m, o, end, f) ==
            Walk(m, o + |OptBytes(x)|, end, if x.Pad? then f else Store(f, x.code, x.data))
  {
    var b := OptBytes(x);
    assert forall i :: 0 <= i < |b| ==> m[o + i] == m[o..o + |b|][i] == b[i];
    if x.Opt? {
      assert m[o + 2..o + 2 + |x.data|] == m[o..o + |b|][2..] == x.data;
    }
    hide Store;
  }

  /** The data of the last option with this code and at least `n` bytes. */
  function LastData(xs: seq<Opt>, code: Byte, n: nat): Option<seq<Byte>> {
    if xs == [] then None
    else
      var x := xs[|xs| - 1];
      if x.Opt? && x.code == code && |x.data| >= n then Some(x.data) else LastData(xs[..|xs| - 1], code, n)
  }

  function FourOr(d: Option<seq<Byte>>, a: Addr): Addr
    requires d.Some? ==> |d.value| >= 4
  {
    if d.Some? then d.value[..4] else a
  }

  lemma {:induction false} StoreAllLast(f: Found, xs: seq<Opt>)
    requires xs != []
    ensures var x := xs[|xs| - 1];
            var g := StoreAll(f, xs[..|xs| - 1]);
            StoreAll(f, xs) == if x.Pad? then g else Store(g, x.code, x.data)
    decreases |xs|
  {
    hide Store;
    if |xs| > 1 {
      assert xs[1..][..|xs| - 2] == xs[..|xs| - 1][1..];
      StoreAllLast(if xs[0].Pad? then f else Store(f, xs[0].code, xs[0].data), xs[1..]);
    }
  }

  /** The last sufficiently long option of each kind decides; shorter ones and unknown ones do not count. */
  lemma {:induction false} LastOptionWins(f: Found, xs: seq<Opt>)
    ensures forall code, n: nat :: LastData(xs, code, n).Some? ==> |LastData(xs, code, n).value| >= n
    ensures var r := StoreAll(f, xs);
            && r.p.mask == FourOr(LastData(xs, OPT_MASK, 4), f.p.mask)
            && r.p.gw == FourOr(LastData(xs, OPT_ROUTER, 4), f.p.gw)
            && r.p.dns == FourOr(LastData(xs, OPT_DNS, 4), f.p.dns)
            && r.p.serverId == FourOr(LastData(xs, OPT_SERVER_ID, 4), f.p.serverId)
            && r.p.leaseS == (match LastData(xs, OPT_LEASE, 4) case Some(d) => Get32(d[..4]) case None => f.p.leaseS)
            && r.kind == (match LastData(xs, OPT_MSG_TYPE, 1) case Some(d) => d[0] case None => f.kind)
            && r.overload == (match LastData(xs, OPT_OVERLOAD, 1) case Some(d) => d[0] case None => f.overload)
  {
    if xs != [] {
      LastOptionWins(f, xs[..|xs| - 1]);
      StoreAllLast(f, xs);
    }
  }

  // ----- messages -----

  datatype Parsed = Parsed(p: Params, kind: Byte, yiaddr: Addr)

  /** The message is a reply to our transaction. */
  predicate ForUs(c: Client, mac: Mac, m: seq<Byte>) {
    && |m| >= OPTIONS_AT && m[0] == 2 && m[4..8] == c.xid && m[28..34] == mac && m[BOOTP_LEN..OPTIONS_AT] == COOKIE
  }

  /** The option areas: the options proper, then those an overload flag adds. */
  function WalkAll(m: seq<Byte>, p: Params): Found
    requires |m| >= OPTIONS_AT
  {
    var a := Walk(m, OPTIONS_AT, |m|, Found(p, 0, 0));
    var b := if a.overload % 2 == 1 then Walk(m, OFF_FILE, BOOTP_LEN, a) else a;
    if b.overload / 2 % 2 == 1 then Walk(m, OFF_SNAME, OFF_FILE, b) else b
  }

  /** parse: kind 0 if the message is not for us. */
  function Parse(c: Client, mac: Mac, m: seq<Byte>): Parsed {
    if !ForUs(c, mac, m) then Parsed(c.params, 0, ZERO)
    else
      var f := WalkAll(m, c.params);
      Parsed(f.p, f.kind, m[16..20])
  }

  /** The options of a message we send: a REQUEST while bound names neither the address nor the server. */
  function OurOptions(c: Client, kind: Byte): (xs: seq<Opt>)
    ensures GoodOpts(xs)
  {
    [Opt(OPT_MSG_TYPE, [kind])]
    + (if kind == MSG_REQUEST && c.state != Bound
       then [Opt(OPT_REQ_IP, c.offered), Opt(OPT_SERVER_ID, c.params.serverId)] else [])
    + [Opt(OPT_PARAM_REQ, [OPT_MASK, OPT_ROUTER, OPT_DNS, OPT_LEASE])]
  }

  function Zeros(n: nat): (z: seq<Byte>)
    ensures |z| == n
  {
    seq(n, _ => 0)
  }

  function BootpHeader(c: Client, ip: Addr, mac: Mac): (h: seq<Byte>)
    ensures |h| == OPTIONS_AT
  {
    [1, 1, 6, 0] + c.xid + [0, 0, if c.state == Bound then 0 else 0x80, 0]
    + (if c.state == Bound then ip else ZERO) + Zeros(12) + mac + Zeros(202) + COOKIE
  }

  lemma OurOptionsLength(c: Client, kind: Byte)
    ensures |OptsBytes(OurOptions(c, kind))| == if kind == MSG_REQUEST && c.state != Bound then 21 else 9
  {
    hide OptBytes;
    var a, z := Opt(OPT_MSG_TYPE, [kind]), Opt(OPT_PARAM_REQ, [OPT_MASK, OPT_ROUTER, OPT_DNS, OPT_LEASE]);
    var b, s := Opt(OPT_REQ_IP, c.offered), Opt(OPT_SERVER_ID, c.params.serverId);
    OptLength(a);
    OptLength(b);
    OptLength(s);
    OptLength(z);
    OptsCons(z, []);
    OptsCons(a, [z]);
    OptsCons(s, [z]);
    OptsCons(b, [s, z]);
    OptsCons(a, [b, s, z]);
    assert [z] + [] == [z] && [s] + [z] == [s, z] && [b] + [s, z] == [b, s, z];
    assert OurOptions(c, kind) == if kind == MSG_REQUEST && c.state != Bound then [a] + [b, s, z] else [a] + [z];
  }

  lemma OptLength(x: Opt)
    requires GoodOpt(x) && x.Opt?
    ensures |OptBytes(x)| == 2 + |x.data|
  {
  }

  lemma OptsCons(x: Opt, xs: seq<Opt>)
    requires GoodOpt(x) && GoodOpts(xs)
    ensures OptsBytes([x] + xs) == OptBytes(x) + OptsBytes(xs) && OptsBytes([]) == []
    ensures forall f :: StoreAll(f, [x] + xs) == StoreAll(if x.Pad? then f else Store(f, x.code, x.data), xs)
    ensures forall f :: StoreAll(f, []) == f
  {
    assert ([x] + xs)[1..] == xs;
    hide OptBytes, Store;
  }

  /** build: always the BOOTP minimum of 300 bytes. */
  function Message(c: Client, ip: Addr, mac: Mac, kind: Byte): (m: seq<Byte>)
    ensures |m| == MIN_LEN
  {
    OurOptionsLength(c, kind);
    var b := OptsBytes(OurOptions(c, kind));
    BootpHeader(c, ip, mac) + b + [OPT_END] + Zeros(MIN_LEN - OPTIONS_AT - 1 - |b|)
  }

  /** A walk over the options of our own message finds its type, and names the server only in a
      REQUEST sent before the address is bound; a REQUEST while bound carries the address in ciaddr. */
  lemma MessageReads(c: Client, ip: Addr, mac: Mac, kind: Byte)
    ensures var m := Message(c, ip, mac, kind);
            var f := Walk(m, OPTIONS_AT, MIN_LEN, Found(NO_PARAMS, 0, 0));
            && f.kind == kind
            && f.p == (if kind == MSG_REQUEST && c.state != Bound
                       then NO_PARAMS.(serverId := c.params.serverId) else NO_PARAMS)
            && m[4..8] == c.xid && m[28..34] == mac && m[12..16] == (if c.state == Bound then ip else ZERO)
  {
    var xs := OurOptions(c, kind);
    var m, h, b := Message(c, ip, mac, kind), BootpHeader(c, ip, mac), OptsBytes(xs);
    assert m[..OPTIONS_AT] == h;
    assert h[4..8] == c.xid && h[28..34] == mac && h[12..16] == if c.state == Bound then ip else ZERO;
    assert m[4..8] == m[..OPTIONS_AT][4..8] && m[28..34] == m[..OPTIONS_AT][28..34] && m[12..16] == m[..OPTIONS_AT][12..16];
    assert m[OPTIONS_AT..OPTIONS_AT + |b|] == b && m[OPTIONS_AT + |b|] == OPT_END;
    WalkStores(m, OPTIONS_AT, MIN_LEN, xs, Found(NO_PARAMS, 0, 0));
    OptionsStored(c, kind);
    hide Walk, Message, BootpHeader, OurOptions, StoreAll, OptsBytes;
  }

  lemma OptionsStored(c: Client, kind: Byte)
    ensures var f := StoreAll(Found(NO_PARAMS, 0, 0), OurOptions(c, kind));
            && f.kind == kind
            && f.p == if kind == MSG_REQUEST && c.state != Bound
                      then NO_PARAMS.(serverId := c.params.serverId) else NO_PARAMS
  {
    hide OptBytes;
    var a, z := Opt(OPT_MSG_TYPE, [kind]), Opt(OPT_PARAM_REQ, [OPT_MASK, OPT_ROUTER, OPT_DNS, OPT_LEASE]);
    var b, s := Opt(OPT_REQ_IP, c.offered), Opt(OPT_SERVER_ID, c.params.serverId);
    OptsCons(z, []);
    OptsCons(a, [z]);
    OptsCons(s, [z]);
    OptsCons(b, [s, z]);
    OptsCons(a, [b, s, z]);
    assert [z] + [] == [z] && [s] + [z] == [s, z] && [b] + [s, z] == [b, s, z];
    assert OurOptions(c, kind) == if kind == MSG_REQUEST && c.state != Bound then [a] + [b, s, z] else [a] + [z];
    assert c.params.serverId[..4] == c.params.serverId;
  }

  // ----- the minute clock -----

  /** Ticks since the grant. */
  function Elapsed(k: Clock): nat { k.age * 3000 + k.sec * 50 + k.acc }

  predicate ClockOk(k: Clock) { k.acc < 50 && k.sec < 60 }

  /** clock_tick: the ticks since the last call are added to the count, whose minutes have 16 bits. */
  function TickTo(k: Clock, now: U16): Clock {
    var x := Elapsed(k) + Wrap16(now - k.last);
    Clock(now, x % 50, x / 50 % 60, Wrap16(x / 3000))
  }

  // ----- the machine -----

  function TermsOf(leaseS: U32): Terms {
    if leaseS < 120 || leaseS >= LEASE_FOREVER_S then Terms(0, 0, 0)
    else
      var l := leaseS / 60;
      Terms(l, l / 2, l - l / 8)
  }

  function Granted(c: Client, now: U16): Client {
    var t := TermsOf(c.params.leaseS);
    c.(phase := InForce, clock := Clock(now, 0, 0, 0), terms := t, next := t.t1)
  }

  /** Where a message goes: while renewing to the server, otherwise to everyone. */
  function Target(c: Client): Addr {
    if c.state == Bound && c.phase == Renewing then c.params.serverId else BROADCAST
  }

  /** A pending send does not count as a try; a refused one does. */
  function Tried(c: Client, now: U16, r: Answer): Client {
    c.(pending := r == Pending, sentAt := now, tries := if r == Pending then c.tries else (c.tries as int + 1) % 256)
  }

  function Transmit(c: Client, host: Host, kind: Byte, now: U16, w: World): Step {
    Step(Tried(c, now, w.answer), host,
         if w.answer == Accepted then [Sent(Target(c), Message(c, host.ip, w.mac, kind))] else [], false)
  }

  /** Start over from nothing. */
  function Fresh(now: U16, w: World): Client {
    Client(Selecting, w.socket, [w.mac[3], w.mac[4], w.mac[5], now % 256], ZERO, NO_PARAMS,
           InForce, Clock(now, 0, 0, 0), Terms(0, 0, 0), 0, 0, 0, false)
  }

  function Start(now: U16, w: World): Step {
    Transmit(Fresh(now, w), UNCONFIGURED, MSG_DISCOVER, now, w)
  }

  function NextXid(x: Addr): Addr { [x[0], x[1], x[2], (x[3] as int + 1) % 256] }

  function Open(c: Client, w: World): Client { c.(sock := if c.sock == NO_SOCKET then w.socket else c.sock) }

  function Dropped(c: Client): Client {
    c.(state := Selecting, phase := InForce, tries := 0, xid := NextXid(c.xid))
  }

  /** The lease ran out or the server said no. */
  function Lost(c: Client, now: U16, w: World): Step {
    Transmit(Open(Dropped(c), w), UNCONFIGURED, MSG_DISCOVER, now, w)
  }

  /** What mn_net_udp_recv hands over: there are four sockets. */
  function Mail(c: Client, w: World): Option<Datagram> { if c.sock < 4 then w.mail else None }

  /** The phase and the time of the next REQUEST, once one is due: never past the rebinding time
      while renewing. */
  function Renewed(c: Client, w: World): Client {
    var phase := if c.clock.age >= c.terms.t2 then Rebinding else Renewing;
    var after := Wrap16(c.clock.age + 1);
    var next := if phase == Renewing && after > c.terms.t2 then c.terms.t2 else after;
    Open(c, w).(phase := phase, tries := 0, next := next)
  }

  /** What is due while bound, once the mailbox has been read. */
  function BoundDue(c: Client, host: Host, now: U16, w: World): Step {
    if c.clock.age >= c.terms.lease then Lost(c, now, w)
    else if c.clock.age >= c.next then Transmit(Renewed(c, w), host, MSG_REQUEST, now, w)
    else if c.pending then Transmit(c, host, MSG_REQUEST, now, w)
    else Step(c, host, [], false)
  }

  function PollBound(c: Client, host: Host, now: U16, w: World): Step {
    var c1 := c.(clock := TickTo(c.clock, now));
    if c.terms.t1 == 0 then Step(c1, host, [], false)
    else
      match Mail(c, w)
      case None => BoundDue(c1, host, now, w)
      case Some(m) =>
        var x := Parse(c, w.mac, m);
        var c2 := c1.(params := x.p);
        if x.kind == MSG_ACK then Step(Granted(c2.(sock := NO_SOCKET), now), host, [], true)
        else if x.kind == MSG_NAK then Lost(c2, now, w)
        else BoundDue(c2, host, now, w)
  }

  function KindFor(s: State): Byte { if s == Selecting then MSG_DISCOVER else MSG_REQUEST }

  /** What is due while acquiring. */
  function AcquireDue(c: Client, host: Host, now: U16, w: World): Step {
    if c.pending then Transmit(c, host, KindFor(c.state), now, w)
    else if Wrap16(now - c.sentAt) < RETRY_TICKS then Step(c, host, [], false)
    else if c.tries >= MAX_TRIES then Step(c.(state := GivenUp, sock := NO_SOCKET), host, [], false)
    else Transmit(c, host, KindFor(c.state), now, w)
  }

  function Acquire(c: Client, host: Host, now: U16, w: World): Step {
    match Mail(c, w)
    case None => AcquireDue(c, host, now, w)
    case Some(m) =>
      var x := Parse(c, w.mac, m);
      var c1 := c.(params := x.p);
      if c.state == Selecting && x.kind == MSG_OFFER then
        Transmit(c1.(offered := x.yiaddr, state := Requesting, tries := 0), host, MSG_REQUEST, now, w)
      else if c.state == Requesting && x.kind == MSG_ACK then
        Step(Granted(c1.(sock := NO_SOCKET, state := Bound), now), Host(x.yiaddr, x.p.mask, x.p.gw), [], true)
      else if c.state == Requesting && x.kind == MSG_NAK then
        Transmit(c1.(state := Selecting, tries := 0), host, MSG_DISCOVER, now, w)
      else AcquireDue(c1, host, now, w)
  }

  /** mn_dhcp_poll */
  function Poll(c: Client, host: Host, now: U16, w: World): Step {
    match c.state
    case Idle | GivenUp => Step(c, host, [], false)
    case Bound => PollBound(c, host, now, w)
    case _ => Acquire(c, host, now, w)
  }

  /** mn_dhcp_lease_left: minutes left, 65535 for a lease without expiry. */
  function LeaseLeft(c: Client): U16 {
    if c.state != Bound then 0
    else if c.terms.t1 == 0 then 0xffff
    else if c.clock.age < c.terms.lease then c.terms.lease - c.clock.age
    else 0
  }
}
