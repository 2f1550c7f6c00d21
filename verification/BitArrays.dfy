/** Copying between byte arrays at arbitrary bit offsets; bit 0 is the most significant bit of byte 0. */
module BitArrays {
  import opened Bits

  function Bit(s: seq<u8>, i: nat): bool
    requires i < 8 * |s|
  {
    BitsOf(s[i / 8])[i % 8]
  }

  // ---------- Byte operations, bit by bit ----------

  function And(a: Byte, b: Byte): Byte { seq(8, i requires 0 <= i < 8 => a[i] && b[i]) }
  function Or(a: Byte, b: Byte): Byte { seq(8, i requires 0 <= i < 8 => a[i] || b[i]) }
  function Not(a: Byte): Byte { seq(8, i requires 0 <= i < 8 => !a[i]) }

  /** A wide register, most significant bit first, shifted with zeros coming in. */
  function ShiftLeft(s: seq<bool>, n: nat): (t: seq<bool>)
    requires n <= |s|
    ensures |t| == |s|
  {
    s[n..] + seq(n, _ => false)
  }

  function ShiftRight(s: seq<bool>, n: nat): (t: seq<bool>)
    requires n <= |s|
    ensures |t| == |s|
  {
    seq(n, _ => false) + s[..|s| - n]
  }

  /** Truncation to the low byte. */
  function LowByte(s: seq<bool>): Byte
    requires |s| >= 8
  {
    s[|s| - 8..]
  }

  const ZEROS: Byte := BitsOf(0)
  const ONES: Byte := BitsOf(0xFF)

  function WriteMask(copyBits: nat, dstBit: nat): Byte
    requires copyBits <= 8 && dstBit < 8
  {
    ShiftRight(LowByte(ShiftRight(ONES + ZEROS, copyBits)), dstBit)
  }

  function SourceData(src: u8, srcBit: nat, dstBit: nat): Byte
    requires srcBit < 8 && dstBit < 8
  {
    LowByte(ShiftRight(ShiftLeft(ZEROS + ZEROS + ZEROS + BitsOf(src), srcBit), dstBit))
  }

  /** One step of the copy: bits of `src` from srcBit on replace copyBits bits of `dst` from dstBit on. */
  function Merge(dst: u8, src: u8, srcBit: nat, dstBit: nat, copyBits: nat): u8
    requires srcBit < 8 && dstBit < 8 && copyBits <= 8
  {
    var mask := WriteMask(copyBits, dstBit);
    ValueOf(Or(And(BitsOf(dst), Not(mask)), And(SourceData(src, srcBit, dstBit), mask)))
  }

  lemma MaskBits(copyBits: nat, dstBit: nat, i: nat)
    requires copyBits + dstBit <= 8 && dstBit < 8 && i < 8
    ensures WriteMask(copyBits, dstBit)[i] == (dstBit <= i < dstBit + copyBits)
  {
    var wide := ShiftRight(ONES + ZEROS, copyBits);
    assert forall j :: 0 <= j < 8 ==> ONES[j] && !ZEROS[j];
    assert forall j :: 0 <= j < 8 ==> LowByte(wide)[j] == wide[8 + j];
  }

  lemma SourceBits(src: u8, srcBit: nat, dstBit: nat, i: nat)
    requires srcBit < 8 && dstBit <= i < 8 && i - dstBit + srcBit < 8
    ensures SourceData(src, srcBit, dstBit)[i] == BitsOf(src)[i - dstBit + srcBit]
  {
    var wide := ZEROS + ZEROS + ZEROS + BitsOf(src);
    var left := ShiftLeft(wide, srcBit);
    assert left[24 + i - dstBit] == wide[24 + i - dstBit + srcBit];
    assert ShiftRight(left, dstBit)[24 + i] == left[24 + i - dstBit];
  }

  lemma MergeBits(dst: u8, src: u8, srcBit: nat, dstBit: nat, copyBits: nat, i: nat)
    requires srcBit < 8 && dstBit < 8 && srcBit + copyBits <= 8 && dstBit + copyBits <= 8 && i < 8
    ensures BitsOf(Merge(dst, src, srcBit, dstBit, copyBits))[i] ==
            if dstBit <= i < dstBit + copyBits then BitsOf(src)[i - dstBit + srcBit] else BitsOf(dst)[i]
  {
    hide BitsOf, ValueOf, WriteMask, SourceData;
    var mask := WriteMask(copyBits, dstBit);
    BitsOfValue(Or(And(BitsOf(dst), Not(mask)), And(SourceData(src, srcBit, dstBit), mask)));
    MaskBits(copyBits, dstBit, i);
    if dstBit <= i < dstBit + copyBits {
      SourceBits(src, srcBit, dstBit, i);
    }
  }

  // ---------- The copy loop ----------

  /** `after` is `before` with n bits replaced by those of `src`, and nothing else changed. */
  ghost predicate Copied(src: seq<u8>, srcOffset: nat, n: nat, before: seq<u8>, after: seq<u8>, dstOffset: nat) {
    && |after| == |before| && srcOffset + n <= 8 * |src| && dstOffset + n <= 8 * |before|
    && forall i :: 0 <= i < 8 * |before| ==>
         Bit(after, i) == if dstOffset <= i < dstOffset + n then Bit(src, srcOffset + i - dstOffset) else Bit(before, i)
  }

  lemma CopiedNothing(src: seq<u8>, srcOffset: nat, before: seq<u8>, dstOffset: nat)
    requires srcOffset <= 8 * |src| && dstOffset <= 8 * |before|
    ensures Copied(src, srcOffset, 0, before, before, dstOffset)
  {
  }

  /** Merging k more bits into the byte they belong to extends the copy. */
  lemma CopiedMore(src: seq<u8>, srcOffset: nat, n: nat, k: nat, before: seq<u8>, after: seq<u8>, dstOffset: nat,
                   s: nat, d: nat, srcBit: nat, dstBit: nat)
    requires Copied(src, srcOffset, n, before, after, dstOffset)
    requires srcOffset + n == 8 * s + srcBit && dstOffset + n == 8 * d + dstBit
    requires srcBit < 8 && dstBit < 8 && srcBit + k <= 8 && dstBit + k <= 8
    requires s < |src| && d < |after|
    ensures Copied(src, srcOffset, n + k, before, after[d := Merge(after[d], src[s], srcBit, dstBit, k)], dstOffset)
  {
    hide Merge, BitsOf;
    var after' := after[d := Merge(after[d], src[s], srcBit, dstBit, k)];
    forall i | 0 <= i < 8 * |before|
      ensures Bit(after', i) == if dstOffset <= i < dstOffset + n + k then Bit(src, srcOffset + i - dstOffset) else Bit(before, i)
    {
      if i / 8 == d {
        var bit := i % 8;
        assert i == 8 * d + bit;
        MergeBits(after[d], src[s], srcBit, dstBit, k, bit);
        SameBit(after, i, d, bit);
        SameBit(after', i, d, bit);
        if dstBit <= bit < dstBit + k {
          SameBit(src, srcOffset + i - dstOffset, s, bit - dstBit + srcBit);
        }
      } else {
        assert Bit(after', i) == Bit(after, i);
        assert dstOffset <= i < dstOffset + n + k <==> dstOffset <= i < dstOffset + n;
      }
    }
  }

  lemma SameBit(s: seq<u8>, i: nat, byte: nat, bit: nat)
    requires i == 8 * byte + bit && bit < 8 && byte < |s|
    ensures Bit(s, i) == BitsOf(s[byte])[bit]
  {
  }

  /** copyBitArray: copies bits a byte or less at a time. */
  method CopyBitArray(src: seq<u8>, srcOffset: nat, length: nat, dst: array<u8>, dstOffset: nat)
    requires length > 0 && srcOffset + length <= 8 * |src| && dstOffset + length <= 8 * dst.Length
    modifies dst
    ensures Copied(src, srcOffset, length, old(dst[..]), dst[..], dstOffset)
  {
    hide Copied, Merge;
    var srcBase, dstBase := srcOffset / 8, dstOffset / 8;
    var from, to := srcOffset % 8, dstOffset % 8;
    var lastBit := from + length;
    CopiedNothing(src, srcOffset, dst[..], dstOffset);
    while lastBit - from != 0
      invariant srcOffset % 8 <= from <= lastBit && from - srcOffset % 8 == to - dstOffset % 8
      invariant Copied(src, srcOffset, from - srcOffset % 8, old(dst[..]), dst[..], dstOffset)
      decreases lastBit - from
    {
      var srcBit, dstBit := from % 8, to % 8;
      var maxOffset := if srcBit > dstBit then srcBit else dstBit;
      var copyBits := if lastBit - from < 8 - maxOffset then lastBit - from else 8 - maxOffset;
      var s, d := srcBase + from / 8, dstBase + to / 8;
      CopiedMore(src, srcOffset, from - srcOffset % 8, copyBits, old(dst[..]), dst[..], dstOffset, s, d, srcBit, dstBit);
      ghost var now := dst[..];
      dst[d] := Merge(dst[d], src[s], srcBit, dstBit, copyBits);
      assert dst[..] == now[d := Merge(now[d], src[s], srcBit, dstBit, copyBits)];
      from, to := from + copyBits, to + copyBits;
    }
  }
}
