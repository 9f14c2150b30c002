/**
  The ARP cache of src/net/mn_arp.c: four slots, filled round-robin, against a queue of
  insertions and against the history of everything learned.
*/
module Arp {
  import opened Words
  import opened Common
  import opened Checksum
  import opened Packets

  const ARP_CACHE: nat := 4

  datatype Entry = Entry(ip: Addr, mac: Mac, valid: bool)

  datatype Pair = Pair(ip: Addr, mac: Mac)

  datatype Answer = Miss | Hit(mac: Mac)

  const NO_ENTRY: Entry := Entry([0, 0, 0, 0], [0, 0, 0, 0, 0, 0], false)

  // ----- the cache as a queue -----

  /** Where the address is in the queue, or its length. */
  function IndexOf(q: seq<Pair>, ip: Addr): (i: nat)
    ensures i <= |q| && (i < |q| ==> q[i].ip == ip) && forall j :: 0 <= j < i ==> q[j].ip != ip
  {
    if q == [] || q[0].ip == ip then 0 else 1 + IndexOf(q[1..], ip)
  }

  /** A known address keeps its place; a new one goes to the back, pushing out the front of a full queue. */
  function Learned(q: seq<Pair>, ip: Addr, mac: Mac): seq<Pair> {
    var i := IndexOf(q, ip);
    if i < |q| then q[i := Pair(ip, mac)]
    else if |q| < ARP_CACHE then q + [Pair(ip, mac)]
    else q[1..] + [Pair(ip, mac)]
  }

  function Found(q: seq<Pair>, ip: Addr): Answer {
    var i := IndexOf(q, ip);
    if i < |q| then Hit(q[i].mac) else Miss
  }

  predicate NoRepeats(q: seq<Pair>) { forall i, j :: 0 <= i < j < |q| ==> q[i].ip != q[j].ip }

  lemma IndexIs(q: seq<Pair>, ip: Addr, i: nat)
    requires NoRepeats(q) && i <= |q| && (i < |q| ==> q[i].ip == ip)
    requires i == |q| ==> forall j :: 0 <= j < |q| ==> q[j].ip != ip
    ensures IndexOf(q, ip) == i
  {
  }

  /** Slot `i` places after slot `next`, around the end. */
  function Turn(next: nat, i: nat): nat
    requires next < 4 && i < 4
  {
    if next + i < 4 then next + i else next + i - 4
  }

  /** The taken slots, oldest insertion first. */
  function QueueOf(s: seq<Entry>, next: nat, count: nat): (q: seq<Pair>)
    requires |s| == 4 && next < 4 && count <= 4
    ensures |q| == count
  {
    seq(count, i requires 0 <= i < count => Pair(s[Turn(next, i)].ip, s[Turn(next, i)].mac))
  }

  /** The slots that are taken are always the first ones. */
  predicate Filled(s: seq<Entry>, next: nat, count: nat) {
    && |s| == 4 && next < 4 && count <= 4 && (count < 4 ==> next == 0)
    && (forall i :: 0 <= i < 4 ==> (s[i].valid <==> i < count))
    && NoRepeats(QueueOf(s, next, count))
  }

  /** Where slot i is in the queue. */
  function PlaceOf(next: nat, i: nat): nat
    requires next < 4 && i < 4
  {
    if i >= next then i - next else i + 4 - next
  }

  lemma SlotHeld(s: seq<Entry>, next: nat, count: nat, i: nat)
    requires Filled(s, next, count) && i < count
    ensures var k := PlaceOf(next, i);
            k < count && QueueOf(s, next, count)[k] == Pair(s[i].ip, s[i].mac)
            && IndexOf(QueueOf(s, next, count), s[i].ip) == k
  {
    var k := PlaceOf(next, i);
    assert Turn(next, k) == i;
    IndexIs(QueueOf(s, next, count), s[i].ip, k);
  }

  lemma NotHeld(s: seq<Entry>, next: nat, count: nat, ip: Addr)
    requires Filled(s, next, count) && forall i :: 0 <= i < count ==> s[i].ip != ip
    ensures IndexOf(QueueOf(s, next, count), ip) == count
  {
    forall k | 0 <= k < count
      ensures QueueOf(s, next, count)[k].ip != ip
    {
      assert Turn(next, k) < count;
    }
    IndexIs(QueueOf(s, next, count), ip, count);
  }

  lemma Refreshed(s: seq<Entry>, next: nat, count: nat, i: nat, mac: Mac)
    requires Filled(s, next, count) && i < count
    ensures var s' := s[i := s[i].(mac := mac)];
            && Filled(s', next, count)
            && QueueOf(s', next, count) == Learned(QueueOf(s, next, count), s[i].ip, mac)
  {
    SlotHeld(s, next, count, i);
    var s' := s[i := s[i].(mac := mac)];
    var q, q', k := QueueOf(s, next, count), QueueOf(s', next, count), PlaceOf(next, i);
    forall j | 0 <= j < count
      ensures q'[j] == q[k := Pair(s[i].ip, mac)][j]
    {
      assert Turn(next, j) == i <==> j == k;
    }
    assert q' == q[k := Pair(s[i].ip, mac)];
  }

  /** A new address in the first free slot. */
  lemma Appended(s: seq<Entry>, count: nat, ip: Addr, mac: Mac)
    requires Filled(s, 0, count) && count < 4 && IndexOf(QueueOf(s, 0, count), ip) == count
    ensures var s' := s[count := Entry(ip, mac, true)];
            && Filled(s', 0, count + 1)
            && QueueOf(s', 0, count + 1) == Learned(QueueOf(s, 0, count), ip, mac)
  {
    var s' := s[count := Entry(ip, mac, true)];
    assert QueueOf(s', 0, count + 1) == QueueOf(s, 0, count) + [Pair(ip, mac)];
  }

  /** A new address in the place of the oldest. */
  lemma Replaced(s: seq<Entry>, next: nat, ip: Addr, mac: Mac)
    requires Filled(s, next, 4) && IndexOf(QueueOf(s, next, 4), ip) == 4
    ensures var s' := s[next := Entry(ip, mac, true)];
            && Filled(s', Turn(next, 1), 4)
            && QueueOf(s', Turn(next, 1), 4) == Learned(QueueOf(s, next, 4), ip, mac)
  {
    var s' := s[next := Entry(ip, mac, true)];
    var q, q' := QueueOf(s, next, 4), QueueOf(s', Turn(next, 1), 4);
    forall j | 0 <= j < 4
      ensures q'[j] == (q[1..] + [Pair(ip, mac)])[j]
    {
      assert Turn(Turn(next, 1), j) == if j < 3 then Turn(next, j + 1) else next;
    }
    assert q' == q[1..] + [Pair(ip, mac)];
  }

  class Cache {
    const e: array<Entry>
    var next: Byte
    /** How many slots are taken. */
    ghost var count: nat

    ghost predicate Valid()
      reads this, e
    {
      Filled(e[..], next, count)
    }

    ghost function Queue(): (q: seq<Pair>)
      reads this, e
      requires Valid()
      ensures |q| == count
    {
      QueueOf(e[..], next, count)
    }

    /** mn_arp_cache_init */
    constructor ()
      ensures Valid() && Queue() == [] && fresh(e)
    {
      e := new Entry[4](_ => NO_ENTRY);
      next := 0;
      count := 0;
    }

    /** mn_arp_cache_learn */
    method Learn(ip: Addr, mac: Mac)
      requires Valid()
      modifies this`next, this`count, e
      ensures Valid() && Queue() == Learned(old(Queue()), ip, mac)
    {
      hide NoRepeats, QueueOf, Learned, IndexOf;
      ghost var s := e[..];
      var i := 0;
      while i < 4
        invariant i <= 4 && s == e[..]
        invariant forall j :: 0 <= j < i && j < count ==> s[j].ip != ip
      {
        if e[i].valid && e[i].ip == ip {
          Refreshed(s, next, count, i, mac);
          e[i] := e[i].(mac := mac);
          assert e[..] == s[i := s[i].(mac := mac)];
          return;
        }
        i := i + 1;
      }
      NotHeld(s, next, count, ip);
      i := 0;
      while i < 4 && e[i].valid
        invariant i <= count
      {
        i := i + 1;
      }
      if i == 4 {
        Replaced(s, next, ip, mac);
        i := next;
        next := (next + 1) % 4;
      } else {
        Appended(s, count, ip, mac);
        count := count + 1;
      }
      e[i] := Entry(ip, mac, true);
      assert e[..] == s[i := Entry(ip, mac, true)];
    }

    /** mn_arp_cache_lookup */
    method Lookup(ip: Addr) returns (a: Answer)
      requires Valid()
      ensures a == Found(Queue(), ip)
    {
      var i := 0;
      while i < 4
        invariant i <= 4
        invariant forall j :: 0 <= j < i && j < count ==> e[j].ip != ip
      {
        if e[i].valid && e[i].ip == ip {
          SlotHeld(e[..], next, count, i);
          return Hit(e[i].mac);
        }
        i := i + 1;
      }
      NotHeld(e[..], next, count, ip);
      a := Miss;
    }
  }

  // ----- what the cache holds after any history of learns -----

  function After(h: seq<Pair>): seq<Pair> {
    if h == [] then [] else Learned(After(h[..|h| - 1]), h[|h| - 1].ip, h[|h| - 1].mac)
  }

  /** The MAC most recently learned for an address. */
  function Latest(h: seq<Pair>, ip: Addr): Answer {
    if h == [] then Miss
    else if h[|h| - 1].ip == ip then Hit(h[|h| - 1].mac)
    else Latest(h[..|h| - 1], ip)
  }

  /** The last four of a sequence. */
  function LastFour(s: seq<Addr>): (l: seq<Addr>)
    ensures |l| <= 4 && |l| <= |s|
  {
    if |s| <= ARP_CACHE then s else s[|s| - ARP_CACHE..]
  }

  /** Every address ever inserted, in order: a learn inserts unless its address is among the last
      four inserted. */
  function Insertions(h: seq<Pair>): seq<Addr> {
    if h == [] then []
    else
      var before := Insertions(h[..|h| - 1]);
      if h[|h| - 1].ip in LastFour(before) then before else before + [h[|h| - 1].ip]
  }

  function Addresses(q: seq<Pair>): (a: seq<Addr>)
    ensures |a| == |q|
  {
    seq(|q|, i requires 0 <= i < |q| => q[i].ip)
  }

  lemma LearnedAddresses(q: seq<Pair>, ip: Addr, mac: Mac)
    requires |q| <= ARP_CACHE
    ensures var a := Addresses(Learned(q, ip, mac));
            a == if ip in Addresses(q) then Addresses(q)
                 else if |q| < ARP_CACHE then Addresses(q) + [ip] else Addresses(q)[1..] + [ip]
    ensures |Learned(q, ip, mac)| <= ARP_CACHE
  {
    var i := IndexOf(q, ip);
    if i < |q| {
      assert Addresses(q)[i] == ip;
    } else {
      assert forall j :: 0 <= j < |q| ==> Addresses(q)[j] == q[j].ip;
    }
  }

  lemma OneMoreInserted(a: seq<Addr>, ip: Addr)
    ensures LastFour(a + [ip]) == if |a| < ARP_CACHE then a + [ip] else LastFour(a)[1..] + [ip]
    ensures |a| < ARP_CACHE ==> LastFour(a) == a
    ensures |a| >= ARP_CACHE ==> |LastFour(a)| == ARP_CACHE
  {
  }

  /** The cache holds exactly the four most recently inserted addresses, in the order of their
      insertion: a refresh does not move an address. */
  lemma {:induction false} HoldsLastInserted(h: seq<Pair>)
    ensures Addresses(After(h)) == LastFour(Insertions(h)) && |After(h)| <= ARP_CACHE
  {
    if h != [] {
      var before, p := h[..|h| - 1], h[|h| - 1];
      HoldsLastInserted(before);
      LearnedAddresses(After(before), p.ip, p.mac);
      OneMoreInserted(Insertions(before), p.ip);
      hide Learned, LastFour;
    }
  }

  /** No address occupies two slots. */
  lemma {:induction false} NeverTwice(h: seq<Pair>)
    ensures NoRepeats(After(h))
  {
    if h != [] {
      NeverTwice(h[..|h| - 1]);
    }
  }

  /** A hit is the MAC most recently learned for that address. */
  lemma {:induction false} HitIsLatest(h: seq<Pair>, ip: Addr)
    ensures Found(After(h), ip) == Miss || Found(After(h), ip) == Latest(h, ip)
  {
    if h != [] {
      var before, p := h[..|h| - 1], h[|h| - 1];
      HitIsLatest(before, ip);
      NeverTwice(before);
      NeverTwice(h);
      FoundAfter(After(before), p.ip, p.mac, ip);
    }
  }

  lemma FoundAfter(q: seq<Pair>, ip: Addr, mac: Mac, other: Addr)
    requires NoRepeats(q) && NoRepeats(Learned(q, ip, mac))
    ensures Found(Learned(q, ip, mac), ip) == Hit(mac)
    ensures other != ip ==> Found(Learned(q, ip, mac), other) == Miss || Found(Learned(q, ip, mac), other) == Found(q, other)
  {
    var r := Learned(q, ip, mac);
    var i := IndexOf(q, ip);
    IndexIs(r, ip, if i < |q| then i else |r| - 1);
    var k := IndexOf(r, other);
    if other != ip && k < |r| {
      if i < |q| || |q| < ARP_CACHE {
        IndexIs(q, other, k);
      } else {
        IndexIs(q, other, k + 1);
      }
    }
  }

  /** An address is found after any history if and only if it is among the last four inserted. */
  lemma FoundIffInserted(h: seq<Pair>, ip: Addr)
    ensures Found(After(h), ip).Hit? <==> ip in LastFour(Insertions(h))
  {
    hide LastFour, Insertions, After;
    HoldsLastInserted(h);
    var q := After(h);
    assert forall j :: 0 <= j < |q| ==> Addresses(q)[j] == q[j].ip;
    if IndexOf(q, ip) < |q| {
      assert Addresses(q)[IndexOf(q, ip)] == ip;
    }
  }

  /** A refresh does not save an address: the oldest insertion of a full cache goes with the next
      new address even if it has just been learned again. */
  lemma RefreshDoesNotSave(q: seq<Pair>, mac: Mac, ip: Addr, other: Mac)
    requires NoRepeats(q) && |q| == ARP_CACHE && IndexOf(q, ip) == ARP_CACHE
    ensures Found(Learned(q, q[0].ip, mac), q[0].ip) == Hit(mac)
    ensures Found(Learned(Learned(q, q[0].ip, mac), ip, other), q[0].ip) == Miss
  {
    var r := q[0 := Pair(q[0].ip, mac)];
    SameAddresses(q, r, ip);
    RefreshesFirst(q, mac);
    PushesOut(r, ip, other);
    hide Learned, Found, NoRepeats, IndexOf;
  }

  lemma RefreshesFirst(q: seq<Pair>, mac: Mac)
    requires q != [] && NoRepeats(q) && NoRepeats(q[0 := Pair(q[0].ip, mac)])
    ensures Learned(q, q[0].ip, mac) == q[0 := Pair(q[0].ip, mac)]
    ensures Found(q[0 := Pair(q[0].ip, mac)], q[0].ip) == Hit(mac)
  {
    IndexIs(q, q[0].ip, 0);
    IndexIs(q[0 := Pair(q[0].ip, mac)], q[0].ip, 0);
    hide IndexOf;
  }

  lemma SameAddresses(q: seq<Pair>, r: seq<Pair>, ip: Addr)
    requires |r| == |q| && forall j :: 0 <= j < |q| ==> r[j].ip == q[j].ip
    requires IndexOf(q, ip) == |q| && NoRepeats(q)
    ensures IndexOf(r, ip) == |r| && NoRepeats(r)
  {
    IndexIs(r, ip, |r|);
    hide IndexOf;
  }

  lemma PushesOut(q: seq<Pair>, ip: Addr, mac: Mac)
    requires NoRepeats(q) && |q| == ARP_CACHE && IndexOf(q, ip) == ARP_CACHE
    ensures Found(Learned(q, ip, mac), q[0].ip) == Miss
  {
    hide IndexOf;
    var s := q[1..] + [Pair(ip, mac)];
    assert Learned(q, ip, mac) == s;
    Shifted(q, Pair(ip, mac));
    IndexIs(s, q[0].ip, ARP_CACHE);
  }

  lemma Shifted(q: seq<Pair>, p: Pair)
    requires NoRepeats(q) && |q| == ARP_CACHE && forall j :: 0 <= j < |q| ==> q[j].ip != p.ip
    ensures var s := q[1..] + [p]; NoRepeats(s) && forall j :: 0 <= j < |s| ==> s[j].ip != q[0].ip
  {
    var s := q[1..] + [p];
    assert forall j :: 0 <= j < ARP_CACHE - 1 ==> s[j] == q[j + 1];
    assert s[ARP_CACHE - 1] == p;
  }
}
