/**
  The shared pool of external memory and the circular buffers in it: src/net/mn_xmem.h and
  the ring copies of src/net/mn_tcp.c.
*/
module Xmem {
  import opened Words

  /** A segment and a 16-bit offset as one 28-bit address. */
  function Address(seg: U16, off: U16): nat { seg * 0x1_0000 + off }

  /** `src` has been copied to `a` and nothing else has changed. */
  predicate Copied(m: seq<Byte>, m': seq<Byte>, a: nat, src: seq<Byte>) {
    |m'| == |m| && forall i :: 0 <= i < |m| ==> m'[i] == if a <= i < a + |src| then src[i - a] else m[i]
  }

  /** External memory, reached only by block copies. */
  class Pool {
    const mem: array<Byte>

    constructor (size: nat)
      ensures fresh(mem) && mem.Length == size
    {
      mem := new Byte[size];
    }

    /** mn_xmem_read: pool to local. */
    method Read(dst: array<Byte>, at: nat, seg: U16, off: U16, len: nat)
      requires Address(seg, off) + len <= mem.Length && at + len <= dst.Length && dst != mem
      modifies dst
      ensures forall i :: 0 <= i < dst.Length ==>
                dst[i] == if at <= i < at + len then mem[Address(seg, off) + i - at] else old(dst[i])
    {
      var a := Address(seg, off);
      forall i | 0 <= i < len {
        dst[at + i] := mem[a + i];
      }
    }

    /** mn_xmem_write: local to pool. */
    method Write(seg: U16, off: U16, src: seq<Byte>)
      requires Address(seg, off) + |src| <= mem.Length
      modifies mem
      ensures Copied(old(mem[..]), mem[..], Address(seg, off), src)
    {
      var a := Address(seg, off);
      forall i | 0 <= i < |src| {
        mem[a + i] := src[i];
      }
    }
  }

  /** Where the k-th byte from position `pos` of a ring of `size` bytes is. */
  function Slot(size: nat, pos: nat, k: nat): (i: nat)
    requires pos < size && k <= size
    ensures i < size
  {
    if pos + k < size then pos + k else pos + k - size
  }

  /** The `len` bytes of a ring from position `pos` on, around the end if need be. */
  function RingBytes(mem: seq<Byte>, start: nat, size: nat, pos: nat, len: nat): (b: seq<Byte>)
    requires start + size <= |mem| && pos < size && len <= size
    ensures |b| == len
  {
    seq(len, k requires 0 <= k < len => mem[start + Slot(size, pos, k)])
  }

  /** The queue of `count` bytes in a ring of the pool's memory. */
  ghost function Queue(mem: array<Byte>, start: nat, size: nat, head: nat, count: nat): (b: seq<Byte>)
    reads mem
    requires start + size <= mem.Length && head < size && count <= size
    ensures |b| == count
  {
    RingBytes(mem[..], start, size, head, count)
  }

  /** ring_read: at most two copies. */
  method RingRead(pool: Pool, dst: array<Byte>, at: nat, seg: U16, base: U16, size: U16, pos: U16, len: U16)
    requires pos < size && len <= size && base + size <= 0x1_0000 && at + len <= dst.Length
    requires Address(seg, base) + size <= pool.mem.Length && dst != pool.mem
    modifies dst
    ensures dst[at..at + len] == RingBytes(pool.mem[..], Address(seg, base), size, pos, len)
    ensures forall i :: 0 <= i < dst.Length && !(at <= i < at + len) ==> dst[i] == old(dst[i])
  {
    var first := size - pos;
    if first > len {
      first := len;
    }
    pool.Read(dst, at, seg, Wrap16(base as int + pos), first);
    if len > first {
      pool.Read(dst, at + first, seg, base, len - first);
    }
  }

  /** ring_write: at most two copies, nothing outside the written arc. */
  method RingWrite(pool: Pool, seg: U16, base: U16, size: U16, pos: U16, src: seq<Byte>)
    requires pos < size && |src| <= size && base + size <= 0x1_0000
    requires Address(seg, base) + size <= pool.mem.Length
    modifies pool.mem
    ensures Written(old(pool.mem[..]), pool.mem[..], Address(seg, base), size, pos, src)
  {
    hide Written, Slot, Copied, Address, Wrap16;
    Offset(seg, base, pos);
    Offset(seg, base, 0);
    ghost var m := pool.mem[..];
    var first := size - pos;
    if first > |src| {
      first := |src|;
    }
    pool.Write(seg, Wrap16(base as int + pos), src[..first]);
    ghost var m1 := pool.mem[..];
    if |src| > first {
      pool.Write(seg, base, src[first..]);
      BothWritten(m, m1, pool.mem[..], Address(seg, base), size, pos, src);
    } else {
      OneWritten(m, m1, Address(seg, base), size, pos, src);
    }
  }

  lemma Offset(seg: U16, base: U16, pos: nat)
    requires base + pos < 0x1_0000
    ensures Address(seg, Wrap16(base + pos)) == Address(seg, base) + pos
  {
  }

  lemma OneWritten(m: seq<Byte>, m': seq<Byte>, start: nat, size: nat, pos: nat, src: seq<Byte>)
    requires pos + |src| <= size && pos < size && start + size <= |m|
    requires Copied(m, m', start + pos, src[..|src|])
    ensures Written(m, m', start, size, pos, src)
  {
    assert src[..|src|] == src;
  }

  lemma BothWritten(m: seq<Byte>, m1: seq<Byte>, m': seq<Byte>, start: nat, size: nat, pos: nat, src: seq<Byte>)
    requires pos < size < pos + |src| && |src| <= size && start + size <= |m|
    requires Copied(m, m1, start + pos, src[..size - pos]) && Copied(m1, m', start, src[size - pos..])
    ensures Written(m, m', start, size, pos, src)
  {
  }

  /** `src` has been written from `pos` on and nothing else has changed. */
  predicate Written(m: seq<Byte>, m': seq<Byte>, start: nat, size: nat, pos: nat, src: seq<Byte>)
    requires pos < size && |src| <= size && start + size <= |m|
  {
    && |m'| == |m|
    && (forall k :: 0 <= k < |src| ==> m'[start + Slot(size, pos, k)] == src[k])
    && (forall k :: |src| <= k < size ==> m'[start + Slot(size, pos, k)] == m[start + Slot(size, pos, k)])
    && SameOutside(m, m', start, size)
  }

  /** Nothing outside `size` bytes at `start` differs. */
  predicate SameOutside(m: seq<Byte>, m': seq<Byte>, start: nat, size: nat) {
    |m| == |m'| && forall i :: 0 <= i < |m| && !(start <= i < start + size) ==> m'[i] == m[i]
  }

  /** Writing at the tail appends to the queue in the ring. */
  lemma Appended(m: seq<Byte>, m': seq<Byte>, start: nat, size: nat, head: nat, count: nat, src: seq<Byte>)
    requires head < size && count + |src| <= size && start + size <= |m|
    requires Written(m, m', start, size, Slot(size, head, count), src)
    ensures RingBytes(m', start, size, head, count + |src|) == RingBytes(m, start, size, head, count) + src
  {
    var tail := Slot(size, head, count);
    forall k | 0 <= k < count + |src|
      ensures m'[start + Slot(size, head, k)] == (RingBytes(m, start, size, head, count) + src)[k]
    {
      if k < count {
        assert Slot(size, head, k) == Slot(size, tail, size - count + k);
      } else {
        assert Slot(size, head, k) == Slot(size, tail, k - count);
      }
    }
  }

  /** Moving the head forward drops the front of the queue. */
  lemma Dropped(m: seq<Byte>, start: nat, size: nat, head: nat, count: nat, n: nat)
    requires head < size && n <= count <= size && start + size <= |m|
    ensures RingBytes(m, start, size, Slot(size, head, n), count - n) == RingBytes(m, start, size, head, count)[n..]
  {
    forall k | 0 <= k < count - n
      ensures Slot(size, Slot(size, head, n), k) == Slot(size, head, n + k)
    {
    }
  }

  /** A part of the queue is a run of the ring. */
  lemma Part(m: seq<Byte>, start: nat, size: nat, head: nat, count: nat, off: nat, len: nat)
    requires head < size && off + len <= count <= size && start + size <= |m|
    ensures RingBytes(m, start, size, Slot(size, head, off), len) == RingBytes(m, start, size, head, count)[off..off + len]
  {
    forall k | 0 <= k < len
      ensures Slot(size, Slot(size, head, off), k) == Slot(size, head, off + k)
    {
    }
  }

  /** What happens outside a ring does not touch the queue in it. */
  lemma Untouched(m: seq<Byte>, m': seq<Byte>, start: nat, size: nat, head: nat, count: nat)
    requires head < size && count <= size && start + size <= |m| == |m'|
    requires forall i :: start <= i < start + size ==> m'[i] == m[i]
    ensures RingBytes(m', start, size, head, count) == RingBytes(m, start, size, head, count)
  {
  }
}
