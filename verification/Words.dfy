/** Fixed-width integers of the C source, and serial-number arithmetic modulo 2^32. */
module Words {
  const M16: int := 0x1_0000
  const M32: int := 0x1_0000_0000
  const HALF: int := 0x8000_0000

  type Byte = x: int | 0 <= x < 256
  type U16 = x: int | 0 <= x < 0x1_0000
  type U32 = x: int | 0 <= x < 0x1_0000_0000

  /** A value stored in a uint32_t. */
  function Wrap(x: int): U32 { x % 0x1_0000_0000 }

  /** A value stored in a uint16_t. */
  function Wrap16(x: int): U16 { x % 0x1_0000 }

  function Min(a: int, b: int): int { if a < b then a else b }

  /** (int32_t)(a - b) < 0 */
  predicate SeqLt(a: U32, b: U32) { Wrap(a - b) >= 0x8000_0000 }

  /** (int32_t)(a - b) <= 0 */
  predicate SeqLeq(a: U32, b: U32) { Wrap(a - b) == 0 || Wrap(a - b) >= 0x8000_0000 }

  /** Big-endian 16-bit field, mn_get16. */
  function Get16(hi: Byte, lo: Byte): U16 { hi * 256 + lo }

  /** Big-endian 16-bit field, mn_put16. */
  function Put16(v: U16): (b: seq<Byte>)
    ensures |b| == 2 && Get16(b[0], b[1]) == v
  {
    [v / 256, v % 256]
  }

  function Get32(b: seq<Byte>): U32
    requires |b| == 4
  {
    Get16(b[0], b[1]) * M16 + Get16(b[2], b[3])
  }

  function Put32(v: U32): (b: seq<Byte>)
    ensures |b| == 4 && Get32(b) == v
  {
    Put16(v / M16) + Put16(v % M16)
  }

  lemma WrapAdd(x: int, n: int)
    ensures Wrap(Wrap(x) + n) == Wrap(x + n)
    ensures Wrap(Wrap(x) - n) == Wrap(x - n)
  {
    var q := x / 0x1_0000_0000;
    assert x == q * 0x1_0000_0000 + Wrap(x);
    WrapRounds(Wrap(x) + n, q);
    WrapRounds(Wrap(x) - n, q);
  }

  /** Whole turns of the circle do not count. */
  lemma WrapRounds(x: int, q: int)
    ensures Wrap(x + q * 0x1_0000_0000) == Wrap(x)
  {
  }

  /** The distance between two positions survives the wrap. */
  lemma WrapDiff(x: int, n: nat)
    requires n < 0x1_0000_0000
    ensures Wrap(Wrap(x + n) - Wrap(x)) == n
  {
  }

  lemma WrapZero(a: U32, b: U32)
    ensures Wrap(a - b) == 0 <==> a == b
  {
  }

  lemma SmallWrap16(x: U16)
    ensures Wrap16(x) == x
  {
  }

  lemma WrapBack(x: U32, a: U32)
    ensures Wrap(x + Wrap(a - x)) == a
  {
  }

  lemma WrapShift(x: int, y: int)
    ensures Wrap(x - y) == Wrap(Wrap(x) - Wrap(y))
  {
  }

  lemma WrapSmall(d: U32, w: U32)
    ensures Wrap(d - w) == if d >= w then d - w else d - w + 0x1_0000_0000
    ensures Wrap(0 - w) == if w == 0 then 0 else 0x1_0000_0000 - w
  {
  }

  /** `lo < a <= hi` on the sequence circle, for a span of less than half of it. */
  lemma SerialWindow(lo: U32, a: U32, hi: U32)
    requires Wrap(hi - lo) < 0x8000_0000
    ensures !SeqLeq(a, lo) && !SeqLt(hi, a) <==> 0 < Wrap(a - lo) <= Wrap(hi - lo)
  {
    var d, w := Wrap(hi - lo), Wrap(a - lo);
    WrapShift(hi - lo, a - lo);
    WrapShift(0, a - lo);
    WrapSmall(d, w);
    hide Wrap;
  }

  /** Two absolute positions less than 2^32 apart that share a sequence number are the same. */
  lemma WrapInjective(base: int, x: int, y: int)
    requires -M32 < x - y < M32
    requires Wrap(base + x) == Wrap(base + y)
    ensures x == y
  {
  }

  /** The signed 32-bit comparisons of the source decide integer order for
      positions less than 2^31 apart (RFC 9293, section 3.4). */
  lemma SerialOrder(base: int, x: int, y: int)
    requires -HALF < x - y < HALF
    ensures SeqLt(Wrap(base + x), Wrap(base + y)) <==> x < y
    ensures SeqLeq(Wrap(base + x), Wrap(base + y)) <==> x <= y
  {
    Apart(base + x, base + y);
    WrapSigned(x - y);
    hide Wrap;
  }

  /** The distance of two numbers on the circle is that of the positions. */
  lemma Apart(x: int, y: int)
    ensures Wrap(Wrap(x) - Wrap(y)) == Wrap(x - y)
  {
    WrapAdd(y, x - y);
    WrapShift(x, y);
    hide Wrap;
  }

  lemma WrapSigned(d: int)
    requires -HALF < d < HALF
    ensures Wrap(d) == if d >= 0 then d else d + 0x1_0000_0000
  {
  }

  /** Writes some bytes in place. */
  method PutBytes(b: array<Byte>, at: nat, s: seq<Byte>)
    requires at + |s| <= b.Length
    modifies b
    ensures b[at..at + |s|] == s
    ensures forall i :: 0 <= i < b.Length && !(at <= i < at + |s|) ==> b[i] == old(b[i])
  {
    forall i | 0 <= i < |s| {
      b[at + i] := s[i];
    }
  }

  /** The two signed tests say that a number is in a window of less than 2^31. */
  lemma InWindow(s: U32, q: U32, w: nat)
    requires w < 0x8000_0000
    ensures !SeqLt(s, q) && !SeqLeq(Wrap(q + w), s) <==> Wrap(s - q) < w
  {
    hide Wrap;
    var d := Wrap(s - q);
    WrapBack(q, s);
    Apart(q + w, q + d);
    WrapNear(w, d);
    WrapZero(Wrap(q + w), s);
  }

  lemma WrapNear(w: nat, d: U32)
    requires w < 0x8000_0000
    ensures Wrap(w - d) == if w >= d then w - d else w - d + 0x1_0000_0000
  {
  }

  /** The start of a window is in it unless the window is closed. */
  lemma EdgeOfWindow(q: U32, w: nat)
    requires w < 0x8000_0000
    ensures !SeqLt(q, q) && (SeqLeq(Wrap(q + w), q) <==> w == 0)
  {
    InWindow(q, q, w);
    WrapZero(q, q);
    hide Wrap;
  }

  /** A slice that is a concatenation falls into its parts. */
  lemma Halves<T>(m: seq<T>, o: nat, a: seq<T>, b: seq<T>)
    requires o + |a + b| <= |m| && m[o..o + |a + b|] == a + b
    ensures m[o..o + |a|] == a && m[o + |a|..o + |a| + |b|] == b
  {
    assert m[o..o + |a|] == m[o..o + |a + b|][..|a|];
    assert m[o + |a|..o + |a| + |b|] == m[o..o + |a + b|][|a|..];
  }
}
