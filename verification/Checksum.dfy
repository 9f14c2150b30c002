/**
  The Internet checksum of src/net/mn_checksum.c: the 16-bit end-around loop against the
  plain sum of big-endian words.
*/
module Checksum {
  import opened Words
  import opened Common

  /** The sum of the big-endian 16-bit words, an odd trailing byte padded low. */
  function WordSum(b: seq<Byte>): nat {
    if |b| == 0 then 0
    else if |b| == 1 then b[0] * 256
    else Get16(b[0], b[1]) + WordSum(b[2..])
  }

  /** A sum brought into 16 bits by carrying around: congruent modulo 65535, zero only for zero. */
  function Fold(s: nat): (r: U16)
    ensures r % 65535 == s % 65535
    ensures r == 0 <==> s == 0
  {
    if s == 0 then 0 else (s - 1) % 65535 + 1
  }

  /** These two properties determine the folded sum. */
  lemma FoldUnique(s: nat, r: U16)
    requires r % 65535 == s % 65535 && (r == 0 <==> s == 0)
    ensures r == Fold(s)
  {
  }

  /** sum += word; if (sum < word) sum++, in 16 bits. */
  function EndAround(sum: U16, word: U16): U16 {
    var s := Wrap16(sum + word);
    if s < word then Wrap16(s + 1) else s
  }

  lemma EndAroundFolds(s: nat, word: U16)
    ensures EndAround(Fold(s), word) == Fold(s + word)
  {
    hide Fold;
    var f := Fold(s);
    EndAroundCases(f, word);
    Congruent(s, f, word);
    FoldUnique(s + word, EndAround(f, word));
  }

  lemma EndAroundCases(f: U16, word: U16)
    ensures EndAround(f, word) == if f + word < 0x1_0000 then f + word else f + word - 65535
  {
  }

  lemma Congruent(s: nat, f: nat, word: nat)
    requires f % 65535 == s % 65535
    ensures (f + word) % 65535 == (s + word) % 65535
    ensures f + word >= 65535 ==> (f + word - 65535) % 65535 == (s + word) % 65535
  {
  }

  lemma FoldTwice(s: nat, u: nat)
    ensures Fold(s + Fold(u)) == Fold(s + u)
  {
    hide Fold;
    Congruent(u, Fold(u), s);
    FoldUnique(s + u, Fold(s + Fold(u)));
  }

  lemma {:induction false} WordSumAppend(a: seq<Byte>, b: seq<Byte>)
    requires |a| % 2 == 0
    ensures WordSum(a + b) == WordSum(a) + WordSum(b)
  {
    if a == [] {
      assert a + b == b;
    } else {
      assert (a + b)[2..] == a[2..] + b;
      WordSumAppend(a[2..], b);
    }
  }

  /** One word more of a block. */
  lemma OneMoreWord(b: seq<Byte>, i: nat)
    requires i % 2 == 0 && i + 2 <= |b|
    ensures EndAround(Fold(WordSum(b[..i])), Get16(b[i], b[i + 1])) == Fold(WordSum(b[..i + 2]))
  {
    hide Fold, EndAround;
    assert b[..i + 2] == b[..i] + [b[i], b[i + 1]];
    WordSumAppend(b[..i], [b[i], b[i + 1]]);
    assert [b[i], b[i + 1]][2..] == [];
    EndAroundFolds(WordSum(b[..i]), Get16(b[i], b[i + 1]));
  }

  /** The trailing byte of a block of odd length. */
  lemma OneMoreByte(b: seq<Byte>, i: nat)
    requires i % 2 == 0 && i + 1 == |b|
    ensures EndAround(Fold(WordSum(b[..i])), b[i] as int * 256) == Fold(WordSum(b))
  {
    hide Fold, EndAround;
    assert b == b[..i] + [b[i]];
    WordSumAppend(b[..i], [b[i]]);
    EndAroundFolds(WordSum(b[..i]), b[i] as int * 256);
  }

  lemma NoWords(b: seq<Byte>)
    ensures Fold(WordSum(b[..0])) == 0
  {
  }

  method Accumulate(sum: U16, word: U16) returns (s: U16)
    ensures s == EndAround(sum, word)
  {
    s := Wrap16(sum + word);
    if s < word {
      s := Wrap16(s + 1);
    }
  }

  /** sum16 over `len` bytes of a buffer. */
  method Sum16(data: array<Byte>, at: nat, len: U16) returns (sum: U16)
    requires at + len <= data.Length
    ensures sum == Fold(WordSum(data[at..at + len]))
  {
    hide Fold, WordSum, EndAround, Get16;
    ghost var b := data[at..at + len];
    NoWords(b);
    sum := 0;
    var i: U16 := 0;
    while Wrap16(i + 1) < len
      invariant i <= len && i % 2 == 0 && i < 65535
      invariant sum == Fold(WordSum(b[..i]))
      decreases len - i
    {
      OneMoreWord(b, i);
      sum := Accumulate(sum, Get16(data[at + i], data[at + i + 1]));
      i := Wrap16(i + 2);
    }
    if i < len {
      OneMoreByte(b, i);
      sum := Accumulate(sum, Wrap16(data[at + i] as int * 256));
    } else {
      assert b[..i] == b;
    }
  }

  /** The value to store in a checksum field. */
  function ChecksumOf(b: seq<Byte>): U16 { 65535 - Fold(WordSum(b)) }

  /** mn_checksum */
  method ComputeChecksum(data: array<Byte>, at: nat, len: U16) returns (c: U16)
    requires at + len <= data.Length
    ensures c == ChecksumOf(data[at..at + len])
  {
    var s := Sum16(data, at, len);
    c := 65535 - s;
  }

  /** A block whose checksum field is populated verifies. */
  predicate Verifies(b: seq<Byte>) { ChecksumOf(b) == 0 }

  /** mn_checksum_valid */
  method CheckValid(data: array<Byte>, at: nat, len: U16) returns (ok: bool)
    requires at + len <= data.Length
    ensures ok == Verifies(data[at..at + len])
  {
    var s := Sum16(data, at, len);
    ok := 65535 - s == 0;
  }

  // ----- the transport checksum -----

  function PseudoHeader(src: Addr, dst: Addr, proto: Byte, len: U16): (h: seq<Byte>)
    ensures |h| == 12
  {
    src + dst + [0, proto] + Put16(len)
  }

  /** The checksum of a segment is that of the segment with its pseudo-header in front. */
  function TransportChecksum(src: Addr, dst: Addr, proto: Byte, b: seq<Byte>): U16
    requires |b| < 0x1_0000
  {
    ChecksumOf(PseudoHeader(src, dst, proto, |b|) + b)
  }

  /** mn_checksum_pseudo: the two parts are summed apart and joined with one more end-around carry. */
  method ComputePseudo(src: Addr, dst: Addr, proto: Byte, data: array<Byte>, at: nat, len: U16) returns (c: U16)
    requires at + len <= data.Length
    ensures c == TransportChecksum(src, dst, proto, data[at..at + len])
  {
    hide *;
    var ph := PutPseudo(src, dst, proto, len);
    var a := Sum16(ph, 0, 12);
    var b := Sum16(data, at, len);
    SummedApart(ph[0..12], data[at..at + len]);
    c := Accumulate(b, a);
    AsComplement(c, src, dst, proto, data[at..at + len]);
    c := 65535 - c;
  }

  lemma AsComplement(sum: U16, src: Addr, dst: Addr, proto: Byte, b: seq<Byte>)
    requires |b| < 0x1_0000 && sum == Fold(WordSum(PseudoHeader(src, dst, proto, |b|) + b))
    ensures 65535 - sum == TransportChecksum(src, dst, proto, b)
  {
    hide WordSum, Fold, PseudoHeader;
  }

  /** The twelve bytes in front of a transport checksum. */
  method PutPseudo(src: Addr, dst: Addr, proto: Byte, len: U16) returns (ph: array<Byte>)
    ensures fresh(ph) && ph.Length == 12 && ph[0..12] == PseudoHeader(src, dst, proto, len)
  {
    ph := new Byte[12];
    for i := 0 to 4
      invariant forall j :: 0 <= j < i ==> ph[j] == src[j] && ph[4 + j] == dst[j]
    {
      ph[i] := src[i];
      ph[4 + i] := dst[i];
    }
    ph[8] := 0;
    ph[9] := proto;
    ph[10] := len / 256;
    ph[11] := len % 256;
    assert ph[0..12] == src + dst + [0, proto] + Put16(len);
  }

  /** Two blocks summed apart and joined with one more end-around carry. */
  lemma SummedApart(h: seq<Byte>, d: seq<Byte>)
    requires |h| % 2 == 0
    ensures EndAround(Fold(WordSum(d)), Fold(WordSum(h))) == Fold(WordSum(h + d))
  {
    hide *;
    WordSumAppend(h, d);
    FoldTwice(WordSum(d), WordSum(h));
    EndAroundFolds(WordSum(d), Fold(WordSum(h)));
  }

  // ----- storing the checksum, and what it detects -----

  /** `b` with a 16-bit big-endian field written at `o`. */
  function WithField(b: seq<Byte>, o: nat, v: U16): (r: seq<Byte>)
    requires o + 2 <= |b|
    ensures |r| == |b|
  {
    b[o := v / 256][o + 1 := v % 256]
  }

  function Field(b: seq<Byte>, o: nat): U16
    requires o + 2 <= |b|
  {
    Get16(b[o], b[o + 1])
  }

  lemma FieldOnly(b: seq<Byte>, o: nat, v: U16)
    requires o + 2 <= |b|
    ensures var r := WithField(b, o, v);
            Field(r, o) == v && r[..o] == b[..o] && r[o + 2..] == b[o + 2..]
  {
  }

  /** mn_put16 into a block of a buffer. */
  method PutField(b: array<Byte>, at: nat, len: nat, o: nat, v: U16)
    requires o + 2 <= len && at + len <= b.Length
    modifies b
    ensures b[at..at + len] == WithField(old(b[at..at + len]), o, v)
    ensures forall i :: 0 <= i < b.Length && !(at <= i < at + len) ==> b[i] == old(b[i])
  {
    b[at + o], b[at + o + 1] := v / 256, v % 256;
  }

  lemma {:induction false} FieldSum(b: seq<Byte>, o: nat, v: U16)
    requires o % 2 == 0 && o + 2 <= |b|
    ensures WordSum(WithField(b, o, v)) == WordSum(b) - Field(b, o) + v
  {
    if o > 0 {
      assert WithField(b, o, v)[2..] == WithField(b[2..], o - 2, v);
      FieldSum(b[2..], o - 2, v);
    } else {
      assert WithField(b, o, v)[2..] == b[2..];
    }
  }

  /** A block checksummed with its field zero verifies once the checksum is stored there. */
  lemma StoredVerifies(b: seq<Byte>, o: nat)
    requires o % 2 == 0 && o + 2 <= |b| && Field(b, o) == 0
    ensures Verifies(WithField(b, o, ChecksumOf(b)))
  {
    hide WordSum, WithField, Fold, Field;
    var c := ChecksumOf(b);
    assert c == 65535 - Fold(WordSum(b));
    FieldSum(b, o, c);
    Complement(WordSum(b));
    Completed(WithField(b, o, c));
    hide ChecksumOf, Verifies;
  }

  lemma Completed(b: seq<Byte>)
    ensures Verifies(b) <==> Fold(WordSum(b)) == 65535
  {
    hide WordSum, Fold;
  }

  /** UDP stores 0xffff for 0: that verifies too. */
  lemma StoredOnesVerify(b: seq<Byte>, o: nat)
    requires o % 2 == 0 && o + 2 <= |b| && Field(b, o) == 0 && ChecksumOf(b) == 0
    ensures Verifies(WithField(b, o, 65535))
  {
    hide WordSum, WithField, Fold;
    FieldSum(b, o, 65535);
    FoldsToOnes(WordSum(b));
    MultiplePlus(WordSum(b));
    FoldsToOnes(WordSum(b) + 65535);
  }

  /** Adding the complement of the folded sum completes it to all ones. */
  lemma Complement(s: nat)
    ensures Fold(s + 65535 - Fold(s)) == 65535
  {
    var f := Fold(s);
    assert f <= s;
    MultiplePlus(s - f);
  }

  lemma MultiplePlus(d: nat)
    requires d % 65535 == 0
    ensures (d + 65535) % 65535 == 0
  {
  }

  lemma FoldsToOnes(s: nat)
    ensures Fold(s) == 65535 <==> s % 65535 == 0 && s != 0
  {
  }

  lemma ModShift(s: int, d: int)
    requires s % 65535 == 0
    ensures (s + d) % 65535 == 0 <==> d % 65535 == 0
  {
  }

  /** Error detection: after one aligned word of a verifying block has been changed, the block
      still verifies exactly if the change is a multiple of 65535 and not everything became zero. */
  lemma OneWordChanged(b: seq<Byte>, o: nat, v: U16)
    requires o % 2 == 0 && o + 2 <= |b| && Verifies(b)
    ensures Verifies(WithField(b, o, v)) <==> (v - Field(b, o)) % 65535 == 0 && WordSum(WithField(b, o, v)) != 0
  {
    FieldSum(b, o, v);
    var s: int, s': int := WordSum(b), WordSum(WithField(b, o, v));
    assert s' == s + (v - Field(b, o));
    FoldsToOnes(WordSum(b));
    FoldsToOnes(WordSum(WithField(b, o, v)));
    hide WordSum, WithField, Fold;
    ModShift(s, v - Field(b, o));
  }

  /** The sum is zero only for all-zero data. */
  lemma {:induction false} ZeroSum(b: seq<Byte>)
    ensures WordSum(b) == 0 <==> forall i :: 0 <= i < |b| ==> b[i] == 0
  {
    if |b| >= 2 {
      ZeroSum(b[2..]);
      assert forall i :: 2 <= i < |b| ==> b[i] == b[2..][i - 2];
      assert forall i :: 0 <= i < |b| - 2 ==> b[2..][i] == b[i + 2];
    }
  }

  /** A field of a block is a field of the block with its pseudo-header in front. */
  lemma PseudoField(src: Addr, dst: Addr, proto: Byte, b: seq<Byte>, o: nat, v: U16)
    requires |b| < 0x1_0000 && o + 2 <= |b|
    ensures var h := PseudoHeader(src, dst, proto, |b|);
            h + WithField(b, o, v) == WithField(h + b, 12 + o, v) && Field(h + b, 12 + o) == Field(b, o)
  {
  }

  /** Error detection with the pseudo-header: one aligned word of a good segment changed is noticed unless the
      change is a multiple of 65535, whatever the segment holds. */
  lemma TransportWordChanged(src: Addr, dst: Addr, proto: Byte, b: seq<Byte>, o: nat, v: U16)
    requires |b| < 0x1_0000 && o % 2 == 0 && o + 2 <= |b| && proto != 0 && TransportChecksum(src, dst, proto, b) == 0
    ensures TransportChecksum(src, dst, proto, WithField(b, o, v)) == 0 <==> (v - Field(b, o)) % 65535 == 0
  {
    hide WordSum, WithField, Field, TransportChecksum, Verifies;
    ViaPseudo(src, dst, proto, b, o, v);
    PseudoNotZero(src, dst, proto, b, o, v);
    OneWordChanged(PseudoHeader(src, dst, proto, |b|) + b, 12 + o, v);
  }

  /** Both checksums are those of the block with its pseudo-header in front. */
  lemma ViaPseudo(src: Addr, dst: Addr, proto: Byte, b: seq<Byte>, o: nat, v: U16)
    requires |b| < 0x1_0000 && o % 2 == 0 && o + 2 <= |b|
    ensures var p := PseudoHeader(src, dst, proto, |b|) + b;
            && (TransportChecksum(src, dst, proto, b) == 0 <==> Verifies(p))
            && (TransportChecksum(src, dst, proto, WithField(b, o, v)) == 0 <==> Verifies(WithField(p, 12 + o, v)))
            && Field(p, 12 + o) == Field(b, o)
  {
    PseudoField(src, dst, proto, b, o, v);
    hide PseudoHeader, WithField, WordSum, Fold, Field;
  }

  /** The protocol number in the pseudo-header keeps the whole from being zero. */
  lemma PseudoNotZero(src: Addr, dst: Addr, proto: Byte, b: seq<Byte>, o: nat, v: U16)
    requires |b| < 0x1_0000 && o + 2 <= |b| && proto != 0
    ensures WordSum(WithField(PseudoHeader(src, dst, proto, |b|) + b, 12 + o, v)) != 0
  {
    var w := WithField(PseudoHeader(src, dst, proto, |b|) + b, 12 + o, v);
    ZeroSum(w);
    assert w[9] == proto;
  }
}
