/**
  What a server achieves: the OFFER that is taken, the REQUEST it makes go out, the ACK and the NAK; and
  what a lease makes go out at its times.
*/
module DhcpAcquire {
  import opened Words
  import opened Common
  import opened Checksum
  import opened Dhcp
  import opened DhcpRuns
  import opened DhcpLease

  // ----- a reply with any options -----

  /** A reply to the transaction `xid` that offers or confirms `ip`, with these options. */
  function Reply(xid: Addr, ip: Addr, mac: Mac, xs: seq<Opt>): (m: seq<Byte>)
    requires GoodOpts(xs)
  {
    ReplyHeader(xid, ip, mac) + OptsBytes(xs) + [OPT_END]
  }

  /** The options overload neither the file nor the sname field. */
  predicate Plain(xs: seq<Opt>) { LastData(xs, OPT_OVERLOAD, 1).None? }

  /** A reply is read option by option. */
  lemma ReplyReads(c: Client, ip: Addr, mac: Mac, xs: seq<Opt>)
    requires GoodOpts(xs) && Plain(xs)
    ensures var f := StoreAll(Found(c.params, 0, 0), xs);
            Parse(c, mac, Reply(c.xid, ip, mac, xs)) == Parsed(f.p, f.kind, ip)
  {
    hide Reply, ReplyHeader, OptsBytes, Walk, StoreAll, ForUs;
    var m := Reply(c.xid, ip, mac, xs);
    ReplyForUs(c, ip, mac, xs);
    WalkStores(m, OPTIONS_AT, |m|, xs, Found(c.params, 0, 0));
    LastOptionWins(Found(c.params, 0, 0), xs);
  }

  lemma ReplyForUs(c: Client, ip: Addr, mac: Mac, xs: seq<Opt>)
    requires GoodOpts(xs)
    ensures var m, b := Reply(c.xid, ip, mac, xs), OptsBytes(xs);
            && ForUs(c, mac, m) && m[16..20] == ip
            && |m| == OPTIONS_AT + |b| + 1 && m[OPTIONS_AT..OPTIONS_AT + |b|] == b && m[OPTIONS_AT + |b|] == OPT_END
  {
    hide OptsBytes, ReplyHeader;
    var m, h, b := Reply(c.xid, ip, mac, xs), ReplyHeader(c.xid, ip, mac), OptsBytes(xs);
    HeaderReads(c.xid, ip, mac);
    assert m[..OPTIONS_AT] == h;
    assert m[4..8] == m[..OPTIONS_AT][4..8] && m[16..20] == m[..OPTIONS_AT][16..20];
    assert m[28..34] == m[..OPTIONS_AT][28..34] && m[236..240] == m[..OPTIONS_AT][236..240] && m[0] == h[0];
  }

  lemma HeaderReads(xid: Addr, ip: Addr, mac: Mac)
    ensures var h := ReplyHeader(xid, ip, mac);
            h[0] == 2 && h[4..8] == xid && h[16..20] == ip && h[28..34] == mac && h[236..240] == COOKIE
  {
  }

  /** The message type the options name. */
  predicate Says(xs: seq<Opt>, kind: Byte) {
    LastData(xs, OPT_MSG_TYPE, 1).Some? && |LastData(xs, OPT_MSG_TYPE, 1).value| >= 1
    && LastData(xs, OPT_MSG_TYPE, 1).value[0] == kind
  }

  /** What the options say of the server, the mask and the router, or what was known before. */
  function Told(xs: seq<Opt>, code: Byte, before: Addr): Addr {
    match LastData(xs, code, 4)
    case Some(d) => if |d| >= 4 then d[..4] else before
    case None => before
  }

  /** The seconds of the lease. */
  function LeaseOf(xs: seq<Opt>, before: U32): U32 {
    match LastData(xs, OPT_LEASE, 4)
    case Some(d) => if |d| >= 4 then Get32(d[..4]) else before
    case None => before
  }

  lemma ReplySays(c: Client, ip: Addr, mac: Mac, xs: seq<Opt>, kind: Byte)
    requires GoodOpts(xs) && Plain(xs) && Says(xs, kind)
    ensures Parse(c, mac, Reply(c.xid, ip, mac, xs)) ==
            Parsed(Params(Told(xs, OPT_SERVER_ID, c.params.serverId), Told(xs, OPT_MASK, c.params.mask),
                          Told(xs, OPT_ROUTER, c.params.gw), Told(xs, OPT_DNS, c.params.dns),
                          LeaseOf(xs, c.params.leaseS)), kind, ip)
  {
    hide Parse, Reply, StoreAll;
    ReplyReads(c, ip, mac, xs);
    LastOptionWins(Found(c.params, 0, 0), xs);
    assert LastData(xs, OPT_MASK, 4).Some? ==> |LastData(xs, OPT_MASK, 4).value| >= 4;
    assert LastData(xs, OPT_ROUTER, 4).Some? ==> |LastData(xs, OPT_ROUTER, 4).value| >= 4;
    assert LastData(xs, OPT_DNS, 4).Some? ==> |LastData(xs, OPT_DNS, 4).value| >= 4;
    assert LastData(xs, OPT_SERVER_ID, 4).Some? ==> |LastData(xs, OPT_SERVER_ID, 4).value| >= 4;
    assert LastData(xs, OPT_LEASE, 4).Some? ==> |LastData(xs, OPT_LEASE, 4).value| >= 4;
  }

  // ----- what a server reads in our messages -----

  /** The data of the last option `code` in an option area, as a server would look for it. */
  function OptionIn(m: seq<Byte>, o: nat, end: nat, code: Byte, before: Option<seq<Byte>>): Option<seq<Byte>>
    requires end <= |m|
    decreases end - o
  {
    if o >= end || m[o] == OPT_END then before
    else if m[o] == 0 then OptionIn(m, o + 1, end, code, before)
    else if o + 1 >= end || o + 2 + m[o + 1] > end then before
    else OptionIn(m, o + 2 + m[o + 1], end, code,
                  if m[o] == code then Some(m[o + 2..o + 2 + m[o + 1]]) else before)
  }

  /** The data of the last option `code` of a list. */
  function LastOf(xs: seq<Opt>, code: Byte, before: Option<seq<Byte>>): Option<seq<Byte>>
    decreases |xs|
  {
    if xs == [] then before
    else LastOf(xs[1..], code, Later(xs[0], code, before))
  }

  lemma {:induction false} OptionStands(m: seq<Byte>, o: nat, end: nat, xs: seq<Opt>, code: Byte, d: Option<seq<Byte>>)
    requires GoodOpts(xs) && o + |OptsBytes(xs)| < end <= |m| && m[o..o + |OptsBytes(xs)|] == OptsBytes(xs)
    requires m[o + |OptsBytes(xs)|] == OPT_END
    ensures OptionIn(m, o, end, code, d) == LastOf(xs, code, d)
    decreases |xs|
  {
    hide OptBytes, OptionIn;
    if xs == [] {
      AtEnd(m, o, end, code, d);
    } else {
      var b, rest := OptBytes(xs[0]), OptsBytes(xs[1..]);
      var d' := Later(xs[0], code, d);
      Halves(m, o, b, rest);
      OneStands(m, o, end, xs[0], code, d);
      OptionStands(m, o + |b|, end, xs[1..], code, d');
    }
  }

  lemma AtEnd(m: seq<Byte>, o: nat, end: nat, code: Byte, d: Option<seq<Byte>>)
    requires o < end <= |m| && m[o] == OPT_END
    ensures OptionIn(m, o, end, code, d) == d
  {
  }

  lemma OneStands(m: seq<Byte>, o: nat, end: nat, x: Opt, code: Byte, d: Option<seq<Byte>>)
    requires GoodOpt(x) && o + |OptBytes(x)| <= end <= |m| && m[o..o + |OptBytes(x)|] == OptBytes(x)
    ensures OptionIn(m, o, end, code, d) ==
            OptionIn(m, o + |OptBytes(x)|, end, code, Later(x, code, d))
  {
    var b := OptBytes(x);
    assert forall i :: 0 <= i < |b| ==> m[o + i] == m[o..o + |b|][i] == b[i];
    if x.Opt? {
      assert m[o + 2..o + 2 + |x.data|] == m[o..o + |b|][2..] == x.data;
    }
  }

  // ----- OFFER, REQUEST, ACK -----

  predicate Is(o: Option<seq<Byte>>, d: seq<Byte>) { o.Some? && o.value == d }

  /** The mailbox holds this reply. */
  predicate Brings(w: World, xid: Addr, ip: Addr, xs: seq<Opt>)
    requires GoodOpts(xs)
  {
    w.mail.Some? && w.mail.value == Reply(xid, ip, w.mac, xs)
  }

  /** The REQUEST an OFFER calls for: its type, the address asked for, the server asked, no ciaddr. */
  ghost predicate Asks(m: seq<Byte>, ip: Addr, server: Addr) {
    && |m| == MIN_LEN && m[12..16] == ZERO
    && Is(OptionIn(m, OPTIONS_AT, MIN_LEN, OPT_MSG_TYPE, None), [MSG_REQUEST])
    && Is(OptionIn(m, OPTIONS_AT, MIN_LEN, OPT_REQ_IP, None), ip)
    && Is(OptionIn(m, OPTIONS_AT, MIN_LEN, OPT_SERVER_ID, None), server)
  }

  lemma RequestAsks(c: Client, ip: Addr, mac: Mac)
    requires c.state == Requesting
    ensures Asks(Message(c, ip, mac, MSG_REQUEST), c.offered, c.params.serverId)
  {
    hide Message, OptionIn, LastOf, Walk;
    MessageReads(c, ip, mac, MSG_REQUEST);
    RequestOption(c, ip, mac, OPT_MSG_TYPE);
    RequestOption(c, ip, mac, OPT_REQ_IP);
    RequestOption(c, ip, mac, OPT_SERVER_ID);
    OptionsOf(c);
  }

  lemma RequestOption(c: Client, ip: Addr, mac: Mac, code: Byte)
    ensures OptionIn(Message(c, ip, mac, MSG_REQUEST), OPTIONS_AT, MIN_LEN, code, None)
            == LastOf(OurOptions(c, MSG_REQUEST), code, None)
  {
    hide OptionIn, LastOf, OurOptions, OptsBytes, BootpHeader;
    var m, b := Message(c, ip, mac, MSG_REQUEST), OptsBytes(OurOptions(c, MSG_REQUEST));
    OurOptionsLength(c, MSG_REQUEST);
    assert m[OPTIONS_AT..OPTIONS_AT + |b|] == b && m[OPTIONS_AT + |b|] == OPT_END;
    OptionStands(m, OPTIONS_AT, MIN_LEN, OurOptions(c, MSG_REQUEST), code, None);
  }

  lemma OptionsOf(c: Client)
    requires c.state == Requesting
    ensures var xs := OurOptions(c, MSG_REQUEST);
            && Is(LastOf(xs, OPT_MSG_TYPE, None), [MSG_REQUEST]) && Is(LastOf(xs, OPT_REQ_IP, None), c.offered)
            && Is(LastOf(xs, OPT_SERVER_ID, None), c.params.serverId)
  {
    var a, b := Opt(OPT_MSG_TYPE, [MSG_REQUEST]), Opt(OPT_REQ_IP, c.offered);
    var s, z := Opt(OPT_SERVER_ID, c.params.serverId), Opt(OPT_PARAM_REQ, [OPT_MASK, OPT_ROUTER, OPT_DNS, OPT_LEASE]);
    assert OurOptions(c, MSG_REQUEST) == [a] + ([b] + ([s] + ([z] + [])));
    hide LastOf, OurOptions;
    forall code: Byte, d: Option<seq<Byte>>
      ensures LastOf([a] + ([b] + ([s] + ([z] + []))), code, d) ==
              Later(z, code, Later(s, code, Later(b, code, Later(a, code, d))))
    {
      LastCons(a, [b] + ([s] + ([z] + [])), code, d);
      LastCons(b, [s] + ([z] + []), code, Later(a, code, d));
      LastCons(s, [z] + [], code, Later(b, code, Later(a, code, d)));
      LastCons(z, [], code, Later(s, code, Later(b, code, Later(a, code, d))));
    }
  }

  /** An option takes the place of an earlier one of its kind. */
  function Later(x: Opt, code: Byte, d: Option<seq<Byte>>): Option<seq<Byte>> {
    if x.Opt? && x.code == code then Some(x.data) else d
  }

  lemma LastCons(x: Opt, xs: seq<Opt>, code: Byte, d: Option<seq<Byte>>)
    ensures LastOf([x] + xs, code, d) == LastOf(xs, code, Later(x, code, d)) && LastOf([], code, d) == d
  {
    assert ([x] + xs)[1..] == xs;
  }

  /** A selecting client takes every OFFER to its transaction: it asks that server for that address, and over a
      link that takes it the one message sent goes to everyone. */
  lemma OfferTaken(c: Client, host: Host, now: U16, w: World, ip: Addr, xs: seq<Opt>)
    requires c.state == Selecting && c.sock < 4 && GoodOpts(xs) && Plain(xs) && Says(xs, MSG_OFFER)
    requires Brings(w, c.xid, ip, xs)
    ensures var r := Poll(c, host, now, w);
            && r.c.state == Requesting && r.c.offered == ip && r.c.xid == c.xid && r.c.sock == c.sock && r.host == host
            && r.c.params.serverId == Told(xs, OPT_SERVER_ID, c.params.serverId)
            && r.c.params.mask == Told(xs, OPT_MASK, c.params.mask) && r.c.params.gw == Told(xs, OPT_ROUTER, c.params.gw)
            && (w.answer != Accepted ==> r.sent == []) && r.c.pending == (w.answer == Pending)
            && (w.answer == Accepted ==>
                  && |r.sent| == 1 && r.sent[0].dst == BROADCAST
                  && Asks(r.sent[0].message, ip, Told(xs, OPT_SERVER_ID, c.params.serverId)))
  {
    hide Reply, Parse, Message, Told, LeaseOf, Asks;
    ReplySays(c, ip, w.mac, xs, MSG_OFFER);
    var x := Parse(c, w.mac, Reply(c.xid, ip, w.mac, xs));
    RequestAsks(c.(params := x.p, offered := ip, state := Requesting, tries := 0), host.ip, w.mac);
  }

  /** A requesting client takes every ACK to its transaction: the host has the address, the mask and the router
      of the ACK, or those known from the OFFER where it names none, and the socket is given back. */
  lemma AckTaken(c: Client, host: Host, now: U16, w: World, ip: Addr, xs: seq<Opt>)
    requires c.state == Requesting && c.sock < 4 && GoodOpts(xs) && Plain(xs) && Says(xs, MSG_ACK)
    requires Brings(w, c.xid, ip, xs)
    ensures var r := Poll(c, host, now, w);
            && r.c.state == Bound && r.granted && r.c.sock == NO_SOCKET && r.sent == []
            && r.host == Host(ip, Told(xs, OPT_MASK, c.params.mask), Told(xs, OPT_ROUTER, c.params.gw))
            && r.c.params.leaseS == LeaseOf(xs, c.params.leaseS) && r.c.terms == TermsOf(r.c.params.leaseS)
            && r.c.phase == InForce && r.c.clock == Clock(now, 0, 0, 0) && r.c.next == r.c.terms.t1
  {
    hide Reply, Parse, Told, LeaseOf, TermsOf;
    ReplySays(c, ip, w.mac, xs, MSG_ACK);
  }

  /** A NAK makes a requesting client start over from DISCOVER. */
  lemma NakTaken(c: Client, host: Host, now: U16, w: World, ip: Addr, xs: seq<Opt>)
    requires c.state == Requesting && c.sock < 4 && GoodOpts(xs) && Plain(xs) && Says(xs, MSG_NAK)
    requires Brings(w, c.xid, ip, xs)
    ensures var r := Poll(c, host, now, w);
            && r.c.state == Selecting && r.host == host && !r.granted
            && (w.answer == Accepted ==>
                  && |r.sent| == 1 && r.sent[0].dst == BROADCAST
                  && r.sent[0].message == Message(r.c, host.ip, w.mac, MSG_DISCOVER))
  {
    hide Reply, Parse, Told, LeaseOf, Message;
    ReplySays(c, ip, w.mac, xs, MSG_NAK);
    var x := Parse(c, w.mac, Reply(c.xid, ip, w.mac, xs));
    SameMessage(c.(params := x.p, state := Selecting, tries := 0), now, w, host);
  }

  /** From DISCOVER to a configured host: a selecting client that gets an OFFER and then an ACK from the server asks
      for what was offered and ends with what was confirmed, for as long as the lease is. */
  lemma Acquires(c: Client, host: Host, t1: U16, w1: World, ip: Addr, xs: seq<Opt>,
                 t2: U16, w2: World, ip2: Addr, ys: seq<Opt>)
    requires Honest(c, host) && c.state == Selecting && c.sock < 4 && w1.answer == Accepted && w1.mac == w2.mac
    requires GoodOpts(xs) && Plain(xs) && Says(xs, MSG_OFFER) && GoodOpts(ys) && Plain(ys) && Says(ys, MSG_ACK)
    requires Brings(w1, c.xid, ip, xs) && Brings(w2, c.xid, ip2, ys)
    ensures var r := Poll(c, host, t1, w1);
            var s := Poll(r.c, r.host, t2, w2);
            var seconds := s.c.params.leaseS;
            && |r.sent| == 1 && Asks(r.sent[0].message, ip, Told(xs, OPT_SERVER_ID, c.params.serverId))
            && s.c.state == Bound
            && s.host == Host(ip2, Told(ys, OPT_MASK, Told(xs, OPT_MASK, c.params.mask)),
                              Told(ys, OPT_ROUTER, Told(xs, OPT_ROUTER, c.params.gw)))
            && (LastData(ys, OPT_LEASE, 4).Some? ==> seconds == LeaseOf(ys, 0))
            && ((forall es :: AllPolls(es) ==> Holds(RunFrom(s.c, s.host, es), ip2))
                <==> !(120 <= seconds < LEASE_FOREVER_S))
  {
    hide Poll, Reply, Told, Asks, Honest, RunFrom, Parse, Says, Plain;
    OfferTaken(c, host, t1, w1, ip, xs);
    PollHonest(c, host, t1, w1);
    var r := Poll(c, host, t1, w1);
    AckTaken(r.c, r.host, t2, w2, ip2, ys);
    ForEverIff(r.c, r.host, t2, w2);
    GrantTerms(r.c, r.host, t2, w2);
    LastOptionWins(Found(NO_PARAMS, 0, 0), ys);
  }

  /** mn_dhcp_start forgets everything, takes the address away and, over a link that takes it, sends one DISCOVER to
      everyone. */
  lemma StartsOut(c: Client, host: Host, now: U16, w: World)
    ensures var r := Do(c, host, EStart(now, w));
            && r.c.state == Selecting && r.host == UNCONFIGURED && r.c.sock == w.socket && r.c.params == NO_PARAMS
            && r.c.sentAt == now && r.c.pending == (w.answer == Pending) && r.c.tries == (if w.answer == Pending then 0 else 1)
            && r.sent == if w.answer == Accepted then [Sent(BROADCAST, Message(r.c, ZERO, w.mac, MSG_DISCOVER))] else []
  {
    hide Message;
    SameMessage(Fresh(now, w), now, w, UNCONFIGURED);
  }

  /** What an acquiring client does without mail: a pending message is offered again at once, an unanswered one
      after 200 ticks and not before, and after the fifth it fails. */
  lemma RetriesOnTime(c: Client, host: Host, now: U16, w: World)
    requires (c.state == Selecting || c.state == Requesting) && NoMail(c, w) && w.answer == Accepted
    ensures var r, late := Poll(c, host, now, w), Wrap16(now - c.sentAt) >= RETRY_TICKS;
            if c.pending || (late && c.tries < MAX_TRIES) then
              && r.c.state == c.state && r.host == host && r.c.sentAt == now && !r.c.pending
              && r.sent == [Sent(BROADCAST, Message(r.c, host.ip, w.mac, KindFor(c.state)))]
            else
              r.c == (if late then c.(state := GivenUp, sock := NO_SOCKET) else c) && r.host == host && r.sent == []
  {
    hide Message, Parse, Wrap16, NoMail;
    if Mail(c, w).Some? {
      NoParse(c, w);
    }
    SameMessage(c, now, w, host);
  }

  /** Mail that is no reply, or is for another transaction, another interface or another protocol, changes
      nothing: the poll is that of an empty mailbox. */
  lemma OthersIgnored(c: Client, host: Host, now: U16, w: World)
    requires Mail(c, w).Some?
    requires var m := Mail(c, w).value;
             |m| < OPTIONS_AT || m[0] != 2 || m[4..8] != c.xid || m[28..34] != w.mac || m[236..240] != COOKIE
    ensures Poll(c, host, now, w) == Poll(c, host, now, w.(mail := None))
  {
    hide Message, Wrap16, TickTo, WalkAll;
    var x := Parse(c, w.mac, Mail(c, w).value);
    assert x.kind == 0 && c.(params := x.p) == c;
    hide Parse;
  }

  /** The overload flags of a reply add the file field and then the sname field to its options. */
  lemma Overloaded(m: seq<Byte>, p: Params, xs: seq<Opt>, ys: seq<Opt>, zs: seq<Opt>)
    requires |m| >= OPTIONS_AT && GoodOpts(xs) && GoodOpts(ys) && GoodOpts(zs)
    requires Stands(m, OPTIONS_AT, |m|, xs) && Stands(m, OFF_FILE, BOOTP_LEN, ys) && Stands(m, OFF_SNAME, OFF_FILE, zs)
    ensures var a := StoreAll(Found(p, 0, 0), xs);
            var b := if a.overload % 2 == 1 then StoreAll(a, ys) else a;
            WalkAll(m, p) == if b.overload / 2 % 2 == 1 then StoreAll(b, zs) else b
  {
    hide Walk, StoreAll, OptsBytes;
    var a := StoreAll(Found(p, 0, 0), xs);
    WalkStores(m, OPTIONS_AT, |m|, xs, Found(p, 0, 0));
    WalkStores(m, OFF_FILE, BOOTP_LEN, ys, a);
    WalkStores(m, OFF_SNAME, OFF_FILE, zs, a);
    WalkStores(m, OFF_SNAME, OFF_FILE, zs, StoreAll(a, ys));
  }

  /** An option area holds these options, closed by an end option or by its own end. */
  predicate Stands(m: seq<Byte>, o: nat, end: nat, xs: seq<Opt>)
    requires GoodOpts(xs)
  {
    && o + |OptsBytes(xs)| <= end <= |m| && m[o..o + |OptsBytes(xs)|] == OptsBytes(xs)
    && (o + |OptsBytes(xs)| < end ==> m[o + |OptsBytes(xs)|] == OPT_END)
  }

  // ----- while bound -----

  /** Nothing in the mailbox is for this client. */
  predicate NoMail(c: Client, w: World) { Mail(c, w).Some? ==> !ForUs(c, w.mac, Mail(c, w).value) }

  /** When a lease with terms makes a message go out.  At `age` minutes a poll without mail sends nothing before
      the renewal time, unless a message is pending; from then on up to expiry it sends a REQUEST from the
      leased address, to the server before T2 and to everyone afterwards, and the next one is due within the
      minute or at T2; at expiry the address is gone and a DISCOVER goes out.  The first renewal time is T1. */
  lemma RenewsInTime(c: Client, host: Host, now: U16, w: World)
    requires Honest(c, host) && Expires(c) && NoMail(c, w) && w.answer == Accepted
    ensures (c.phase == InForce ==> c.next == c.terms.t1) && (c.phase == Renewing ==> c.next <= c.terms.t2)
    ensures var r, age := Poll(c, host, now, w), TickTo(c.clock, now).age;
            if age >= c.terms.lease then
              && r.c.state == Selecting && r.host == UNCONFIGURED && r.c.xid != c.xid && r.c.sock == Reopened(c, w)
              && |r.sent| == 1 && r.sent[0].dst == BROADCAST && r.sent[0].message == Message(r.c, ZERO, w.mac, MSG_DISCOVER)
            else
              && r.c.state == Bound && r.host == host && (age >= c.next || c.pending <==> r.sent != [])
              && (age >= c.next ==>
                    && r.c.sock == Reopened(c, w) && r.c.xid == c.xid
                    && r.sent == [Sent(if age < c.terms.t2 then c.params.serverId else BROADCAST,
                                       Message(r.c, host.ip, w.mac, MSG_REQUEST))]
                    && r.c.next == (if age < c.terms.t2 then Min(age + 1, c.terms.t2) else age + 1)
                    && r.c.phase == if age < c.terms.t2 then Renewing else Rebinding)
  {
    hide TickTo, Message, Parse, PhaseAt, NextXid;
    XidMoves(c.xid);
    if Mail(c, w).Some? {
      NoParse(c, w);
    }
    Counted(c, host, now);
    var c1 := c.(clock := TickTo(c.clock, now));
    var k := c1.clock.age;
    SameMessage(Renewed(c1, w), now, w, host);
    SameMessage(Open(Dropped(c1), w), now, w, UNCONFIGURED);
    if k < c.terms.lease {
      SmallWrap16(k + 1);
    }
    hide Wrap16;
  }

  /** A socket is there to hear the answer: the one in use, or a new one. */
  function Reopened(c: Client, w: World): Byte { if c.sock == NO_SOCKET then w.socket else c.sock }

  /** A lost lease means a new transaction, so that replies to the old one are ignored. */
  lemma XidMoves(x: Addr)
    ensures NextXid(x) != x
  {
    assert NextXid(x)[3] != x[3];
  }

  lemma NoParse(c: Client, w: World)
    requires NoMail(c, w) && Mail(c, w).Some?
    ensures var x := Parse(c, w.mac, Mail(c, w).value); x.kind == 0 && x.p == c.params
  {
    hide ForUs;
  }

  lemma Counted(c: Client, host: Host, now: U16)
    requires Honest(c, host) && Expires(c)
    ensures c.terms.t1 > 0 && c.terms.lease < 64800
    ensures (c.phase == InForce ==> c.next == c.terms.t1) && (c.phase == Renewing ==> c.next <= c.terms.t2)
  {
  }

  /** A bound client whose lease has terms takes every ACK to its transaction as a new lease of the same address, and
      a NAK as the end of it. */
  lemma BoundReplies(c: Client, host: Host, now: U16, w: World, ip: Addr, xs: seq<Opt>)
    requires c.state == Bound && c.terms.t1 > 0 && c.sock < 4 && GoodOpts(xs) && Plain(xs) && Brings(w, c.xid, ip, xs)
    ensures var r := Poll(c, host, now, w);
            && (Says(xs, MSG_ACK) ==>
                  && r.c.state == Bound && r.granted && r.host == host && r.sent == [] && r.c.sock == NO_SOCKET
                  && r.c.clock == Clock(now, 0, 0, 0) && r.c.terms == TermsOf(LeaseOf(xs, c.params.leaseS)))
            && (Says(xs, MSG_NAK) ==>
                  && r.c.state == Selecting && r.host == UNCONFIGURED && !r.granted && r.c.xid != c.xid
                  && r.c.sock == c.sock
                  && (w.answer == Accepted ==>
                        r.sent == [Sent(BROADCAST, Message(r.c, ZERO, w.mac, MSG_DISCOVER))]))
  {
    hide Reply, Parse, Told, LeaseOf, TermsOf, Message, TickTo;
    if Says(xs, MSG_ACK) {
      ReplySays(c, ip, w.mac, xs, MSG_ACK);
    } else if Says(xs, MSG_NAK) {
      ReplySays(c, ip, w.mac, xs, MSG_NAK);
      var x := Parse(c, w.mac, Reply(c.xid, ip, w.mac, xs));
      var c1 := c.(clock := TickTo(c.clock, now), params := x.p);
      SameMessage(Open(Dropped(c1), w), now, w, UNCONFIGURED);
      XidMoves(c.xid);
    }
  }
}
