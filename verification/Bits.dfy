/** Bit arrays, most significant bit of each byte first, and the copy routine between two bit alignments. */
module Bits {

  /** 2^i, for i < 16. */
  function Power(i: nat): bv16 {
    if i == 0 then 1 else if i == 1 then 2 else if i == 2 then 4 else if i == 3 then 8
    else if i == 4 then 0x10 else if i == 5 then 0x20 else if i == 6 then 0x40 else if i == 7 then 0x80
    else if i == 8 then 0x100 else if i == 9 then 0x200 else if i == 10 then 0x400 else if i == 11 then 0x800
    else if i == 12 then 0x1000 else if i == 13 then 0x2000 else if i == 14 then 0x4000 else 0x8000
  }

  /** The bit of weight 2^i. */
  predicate Weight(w: bv16, i: nat) {
    w & Power(i) != 0
  }

  function Mask(j: nat): bv8 {
    if j == 0 then 0x80 else if j == 1 then 0x40 else if j == 2 then 0x20 else if j == 3 then 0x10
    else if j == 4 then 8 else if j == 5 then 4 else if j == 6 then 2 else 1
  }

  /** Bit j of a byte, counted from the most significant one. */
  predicate BitOf(b: bv8, j: nat)
    requires j < 8
  {
    b & Mask(j) != 0
  }

  lemma BitIsWeight(b: bv8, j: nat)
    requires j < 8
    ensures BitOf(b, j) == Weight(b as bv16, 7 - j)
  {
  }

  /** Bit k of a byte array. */
  predicate BitAt(s: seq<bv8>, k: nat)
    requires k < 8 * |s|
  {
    BitOf(s[k / 8], k % 8)
  }

  lemma BytesEqualByBits(a: bv8, b: bv8)
    requires forall j: nat :: j < 8 ==> BitOf(a, j) == BitOf(b, j)
    ensures a == b
  {
    assert BitOf(a, 0) == BitOf(b, 0) && BitOf(a, 1) == BitOf(b, 1);
    assert BitOf(a, 2) == BitOf(b, 2) && BitOf(a, 3) == BitOf(b, 3);
    assert BitOf(a, 4) == BitOf(b, 4) && BitOf(a, 5) == BitOf(b, 5);
    assert BitOf(a, 6) == BitOf(b, 6) && BitOf(a, 7) == BitOf(b, 7);
  }

  // ---------------------------------------------------------------------------------------------
  // One step of the copy: the next bits up to a byte boundary on either side

  function ShiftLeft(w: bv16, n: nat): bv16
    requires n < 8
  {
    w << (n as bv16)
  }

  function ShiftRight(w: bv16, n: nat): bv16
    requires n <= 8
  {
    w >> (n as bv16)
  }

  function LowByte(w: bv16): bv8 {
    (w & 0xFF) as bv8
  }

  /** The source byte moved from bit offset s to bit offset d. The shifts act on an int, so no bit is lost between. */
  function Aligned(x: bv8, s: nat, d: nat): bv8
    requires s < 8 && d < 8
  {
    LowByte(ShiftRight(ShiftLeft(x as bv16, s), d))
  }

  function WriteMask(count: nat, d: nat): bv8
    requires count <= 8 && d < 8
  {
    LowByte(ShiftRight(LowByte(ShiftRight(0xFF00, count)) as bv16, d))
  }

  function Merge(old_: bv8, new_: bv8, mask: bv8): bv8 {
    (old_ & !mask) | (new_ & mask)
  }

  lemma ShiftLeftWeight(w: bv16, n: nat, i: nat)
    requires n < 8 && i < 16
    ensures Weight(ShiftLeft(w, n), i) == (n <= i && Weight(w, i - n))
    decreases n
  {
    hide Weight, ShiftLeft;
    if n == 0 {
      ShiftByZero(w);
    } else {
      LeftOnce(w, n);
      ShiftLeftWeight(w << 1, n - 1, i);
      if n <= i { DoubleWeight(w, i - n + 1); } else { DoubleIsEven(w); }
    }
  }

  lemma ShiftRightWeight(w: bv16, n: nat, i: nat)
    requires n <= 8 && i + n < 16
    ensures Weight(ShiftRight(w, n), i) == Weight(w, i + n)
    decreases n
  {
    hide Weight, ShiftRight;
    if n == 0 {
      ShiftByZero(w);
    } else {
      RightOnce(w, n);
      ShiftRightWeight(w >> 1, n - 1, i);
      HalfWeight(w, i + n - 1);
    }
  }

  lemma ShiftByZero(w: bv16)
    ensures ShiftLeft(w, 0) == w && ShiftRight(w, 0) == w
  {
  }

  lemma LeftOnce(w: bv16, n: nat)
    requires 1 <= n < 8
    ensures ShiftLeft(w, n) == ShiftLeft(w << 1, n - 1)
  {
    if n == 1 { assert ShiftLeft(w, 1) == ShiftLeft(w << 1, 0); }
    else if n == 2 { assert ShiftLeft(w, 2) == ShiftLeft(w << 1, 1); }
    else if n == 3 { assert ShiftLeft(w, 3) == ShiftLeft(w << 1, 2); }
    else if n == 4 { assert ShiftLeft(w, 4) == ShiftLeft(w << 1, 3); }
    else if n == 5 { assert ShiftLeft(w, 5) == ShiftLeft(w << 1, 4); }
    else if n == 6 { assert ShiftLeft(w, 6) == ShiftLeft(w << 1, 5); }
    else { assert ShiftLeft(w, 7) == ShiftLeft(w << 1, 6); }
  }

  lemma RightOnce(w: bv16, n: nat)
    requires 1 <= n <= 8
    ensures ShiftRight(w, n) == ShiftRight(w >> 1, n - 1)
  {
    if n == 1 { assert ShiftRight(w, 1) == ShiftRight(w >> 1, 0); }
    else if n == 2 { assert ShiftRight(w, 2) == ShiftRight(w >> 1, 1); }
    else if n == 3 { assert ShiftRight(w, 3) == ShiftRight(w >> 1, 2); }
    else if n == 4 { assert ShiftRight(w, 4) == ShiftRight(w >> 1, 3); }
    else if n == 5 { assert ShiftRight(w, 5) == ShiftRight(w >> 1, 4); }
    else if n == 6 { assert ShiftRight(w, 6) == ShiftRight(w >> 1, 5); }
    else if n == 7 { assert ShiftRight(w, 7) == ShiftRight(w >> 1, 6); }
    else { assert ShiftRight(w, 8) == ShiftRight(w >> 1, 7); }
  }

  lemma DoubleWeight(w: bv16, i: nat)
    requires 1 <= i < 16
    ensures Weight(w << 1, i) == Weight(w, i - 1)
  {
    hide Power;
    DoublePower(i);
    DoubleMask(w, Power(i));
  }

  lemma DoubleIsEven(w: bv16)
    ensures !Weight(w << 1, 0)
  {
  }

  lemma HalfWeight(w: bv16, i: nat)
    requires i < 15
    ensures Weight(w >> 1, i) == Weight(w, i + 1)
  {
    hide Power;
    DoublePower(i + 1);
    HalfMask(w, Power(i + 1));
  }

  lemma DoubleMask(w: bv16, mask: bv16)
    requires mask & 1 == 0
    ensures (w << 1) & mask == 0 <==> w & (mask >> 1) == 0
  {
  }

  lemma HalfMask(w: bv16, mask: bv16)
    requires mask & 1 == 0
    ensures (w >> 1) & (mask >> 1) == 0 <==> w & mask == 0
  {
  }

  lemma DoublePower(i: nat)
    requires 1 <= i < 16
    ensures Power(i) & 1 == 0 && Power(i - 1) == Power(i) >> 1
  {
  }

  lemma LowByteWeight(w: bv16, i: nat)
    requires i < 8
    ensures Weight(LowByte(w) as bv16, i) == Weight(w, i)
  {
  }

  lemma AlignedBit(x: bv8, s: nat, d: nat, j: nat)
    requires s < 8 && d <= j < 8 && j - d + s < 8
    ensures BitOf(Aligned(x, s, d), j) == BitOf(x, j - d + s)
  {
    hide Weight, BitOf, ShiftLeft, ShiftRight, LowByte;
    BitIsWeight(Aligned(x, s, d), j);
    BitIsWeight(x, j - d + s);
    LowByteWeight(ShiftRight(ShiftLeft(x as bv16, s), d), 7 - j);
    ShiftRightWeight(ShiftLeft(x as bv16, s), d, 7 - j);
    ShiftLeftWeight(x as bv16, s, 7 - j + d);
  }

  lemma WriteMaskBit(count: nat, d: nat, j: nat)
    requires 1 <= count && count + d <= 8 && j < 8
    ensures BitOf(WriteMask(count, d), j) == (d <= j < d + count)
  {
    hide Weight, BitOf, ShiftLeft, ShiftRight, LowByte;
    BitIsWeight(WriteMask(count, d), j);
    var ones := LowByte(ShiftRight(0xFF00, count));
    LowByteWeight(ShiftRight(ones as bv16, d), 7 - j);
    ShiftRightWeight(ones as bv16, d, 7 - j);
    if d <= j {
      LowByteWeight(ShiftRight(0xFF00, count), 7 - j + d);
      ShiftRightWeight(0xFF00, count, 7 - j + d);
    }
    OnesWeight(7 - j + d + count);
    ByteWeight(ones, 7 - j + d);
  }

  lemma OnesWeight(i: nat)
    requires i < 16
    ensures Weight(0xFF00, i) == (8 <= i)
  {
  }

  lemma ByteWeight(b: bv8, i: nat)
    requires i < 16
    ensures Weight(b as bv16, i) ==> i < 8
  {
  }

  lemma MergeBit(o: bv8, n: bv8, mask: bv8, j: nat)
    requires j < 8
    ensures BitOf(Merge(o, n, mask), j) == if BitOf(mask, j) then BitOf(n, j) else BitOf(o, j)
  {
    hide Mask;
    SingleBit(mask, j);
    MergeUnderMask(o, n, mask, Mask(j));
  }

  lemma SingleBit(b: bv8, j: nat)
    ensures b & Mask(j) == 0 || b & Mask(j) == Mask(j)
  {
  }

  lemma MergeUnderMask(o: bv8, n: bv8, mask: bv8, p: bv8)
    requires mask & p == 0 || mask & p == p
    ensures Merge(o, n, mask) & p == if mask & p != 0 then n & p else o & p
  {
  }

  lemma StepBit(x: bv8, o: bv8, s: nat, d: nat, count: nat, j: nat)
    requires 1 <= count && s + count <= 8 && d + count <= 8 && j < 8
    ensures BitOf(Merge(o, Aligned(x, s, d), WriteMask(count, d)), j) ==
            if d <= j < d + count then BitOf(x, j - d + s) else BitOf(o, j)
  {
    hide *;
    MergeBit(o, Aligned(x, s, d), WriteMask(count, d), j);
    WriteMaskBit(count, d, j);
    if d <= j < d + count {
      AlignedBit(x, s, d, j);
    }
  }

  // ---------------------------------------------------------------------------------------------

  /** `after` is `before` with `length` bits from bit `to` on replaced by the bits of `src` from bit `from` on. */
  ghost predicate BitsCopied(src: seq<bv8>, from: nat, length: nat, before: seq<bv8>, after: seq<bv8>, to: nat) {
    && from + length <= 8 * |src| && |after| == |before|
    && forall k: nat {:trigger BitAt(after, k)} | k < 8 * |after| ::
         BitAt(after, k) == if to <= k < to + length then BitAt(src, from + (k - to)) else BitAt(before, k)
  }

  /** Equal bits, equal bytes: BitsCopied determines its result. */
  lemma BitsCopiedUnique(src: seq<bv8>, from: nat, length: nat, before: seq<bv8>, a: seq<bv8>, b: seq<bv8>, to: nat)
    requires BitsCopied(src, from, length, before, a, to) && BitsCopied(src, from, length, before, b, to)
    ensures a == b
  {
    forall i | 0 <= i < |a| ensures a[i] == b[i] {
      forall j: nat | j < 8 ensures BitOf(a[i], j) == BitOf(b[i], j) {
        assert BitAt(a, 8 * i + j) == BitAt(b, 8 * i + j);
      }
      BytesEqualByBits(a[i], b[i]);
    }
  }

  lemma StepCopies(src: seq<bv8>, p: nat, s: nat, before: seq<bv8>, after: seq<bv8>, q: nat, d: nat, count: nat)
    requires 1 <= count && s + count <= 8 && d + count <= 8 && p < |src| && q < |before|
    requires after == before[q := Merge(before[q], Aligned(src[p], s, d), WriteMask(count, d))]
    ensures BitsCopied(src, 8 * p + s, count, before, after, 8 * q + d)
  {
    hide Merge, Aligned, WriteMask, BitOf;
    var from, to := 8 * p + s, 8 * q + d;
    forall k: nat | k < 8 * |after|
      ensures BitAt(after, k) == if to <= k < to + count then BitAt(src, from + (k - to)) else BitAt(before, k)
    {
      var j := k % 8;
      if k / 8 == q {
        assert k - to == j - d;
        StepBit(src[p], before[q], s, d, count, j);
        if to <= k < to + count {
          BitOfByte(src, p, s + (j - d));
        }
      }
    }
  }

  lemma BitOfByte(a: seq<bv8>, p: nat, j: nat)
    requires p < |a| && j < 8
    ensures BitAt(a, 8 * p + j) == BitOf(a[p], j)
  {
    hide BitOf;
    assert (8 * p + j) / 8 == p && (8 * p + j) % 8 == j;
  }

  /** Copies exactly `srcLen` bits; every iteration moves at least one, up to the next byte boundary on either side. */
  method CopyBitArray(src: seq<bv8>, srcOffset: nat, srcLen: nat, dst: array<bv8>, dstOffset: nat)
    requires srcLen > 0
    requires srcOffset + srcLen <= 8 * |src| && dstOffset + srcLen <= 8 * dst.Length
    modifies dst
    ensures BitsCopied(src, srcOffset, srcLen, old(dst[..]), dst[..], dstOffset)
  {
    hide *;
    var srcBase, dstBase := srcOffset / 8, dstOffset / 8;
    var so, d := srcOffset % 8, dstOffset % 8;
    var lastBit := so + srcLen;
    ghost var first := so;
    CopyNothing(src, srcOffset, dst[..], dstOffset);
    while lastBit - so != 0
      invariant first <= so <= lastBit && d == dstOffset % 8 + (so - first)
      invariant BitsCopied(src, srcOffset, so - first, old(dst[..]), dst[..], dstOffset)
      decreases lastBit - so
    {
      var srcBitOffset, dstBitOffset := so % 8, d % 8;
      var maxOffset := if srcBitOffset > dstBitOffset then srcBitOffset else dstBitOffset;
      var copyBits := if lastBit - so < 8 - maxOffset then lastBit - so else 8 - maxOffset;
      var writeMask := WriteMask(copyBits, dstBitOffset);
      var srcData := Aligned(src[srcBase + so / 8], srcBitOffset, dstBitOffset);
      ghost var before := dst[..];
      dst[dstBase + d / 8] := Merge(dst[dstBase + d / 8], srcData, writeMask);
      assert dst[..] == before[dstBase + d / 8 := dst[dstBase + d / 8]];
      StepCopies(src, srcBase + so / 8, srcBitOffset, before, dst[..], dstBase + d / 8, dstBitOffset, copyBits);
      assert 8 * (srcBase + so / 8) + srcBitOffset == 8 * srcBase + so;
      assert 8 * (dstBase + d / 8) + dstBitOffset == 8 * dstBase + d;
      CopiesCompose(src, srcOffset, so - first, copyBits, old(dst[..]), before, dst[..], dstOffset);
      so := so + copyBits;
      d := d + copyBits;
    }
  }

  lemma CopyNothing(src: seq<bv8>, from: nat, s: seq<bv8>, to: nat)
    requires from <= 8 * |src|
    ensures BitsCopied(src, from, 0, s, s, to)
  {
  }

  /** Two adjacent copies make one. */
  lemma CopiesCompose(src: seq<bv8>, from: nat, m: nat, n: nat, a: seq<bv8>, b: seq<bv8>, c: seq<bv8>, to: nat)
    requires BitsCopied(src, from, m, a, b, to) && BitsCopied(src, from + m, n, b, c, to + m)
    ensures BitsCopied(src, from, m + n, a, c, to)
  {
    forall k: nat | k < 8 * |c|
      ensures BitAt(c, k) == if to <= k < to + m + n then BitAt(src, from + (k - to)) else BitAt(a, k)
    {
      assert BitAt(b, k) == if to <= k < to + m then BitAt(src, from + (k - to)) else BitAt(a, k);
    }
  }
}
