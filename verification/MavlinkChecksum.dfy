/** The bit arithmetic of the MAVLink checksum (components/airlink_router/airlink_mavlink.c): shifts and exclusive ors
    of whole words that divide, reflected, by the polynomial of the CAN transfer CRC. */
module MavlinkChecksum {
  import opened Bits
  import opened TransferCrc
  import M = MavlinkFrame

  // ---------- The loop body of the source ----------

  function Xor(a: seq<bool>, b: seq<bool>): (r: seq<bool>)
    requires |a| == |b|
    ensures |r| == |a|
  {
    seq(|a|, i requires 0 <= i < |a| => a[i] != b[i])
  }

  /** The byte that tmp becomes: data and the low half of the checksum, then itself shifted left by four. */
  function Mixed(data: Byte, crc: Register): Byte {
    var tmp := Xor(data, crc[8..]);
    Xor(tmp, tmp[4..] + Zeros(4))
  }

  /** crc_accumulate on bits: the checksum's high half, and tmp shifted left by eight and three and right by four. */
  function AccumulateBits(data: Byte, crc: Register): Register {
    var tmp := Mixed(data, crc);
    Xor(Xor(Zeros(8) + crc[..8], tmp + Zeros(8)), Xor(Zeros(5) + tmp + Zeros(3), Zeros(12) + tmp[..4]))
  }

  function WordBits(n: u16): Register { BitsOf(n / 0x100) + BitsOf(n % 0x100) }
  function WordOf(bits: Register): u16 { ValueOf(bits[..8]) * 0x100 + ValueOf(bits[8..]) }

  lemma WordBitsOf(bits: Register)
    ensures WordBits(WordOf(bits)) == bits
  {
    hide BitsOf, ValueOf;
    BitsOfValue(bits[..8]);
    BitsOfValue(bits[8..]);
    HighAndLow(ValueOf(bits[..8]), ValueOf(bits[8..]));
    assert bits == bits[..8] + bits[8..];
  }

  lemma HighAndLow(high: u8, low: u8)
    ensures (high * 0x100 + low) / 0x100 == high && (high * 0x100 + low) % 0x100 == low
  {
  }

  /** crc_accumulate */
  function Accumulate(data: u8, crc: u16): u16 { WordOf(AccumulateBits(BitsOf(data), WordBits(crc))) }

  // ---------- It divides ----------

  function Reverse(s: seq<bool>): (r: seq<bool>)
    ensures |r| == |s|
  {
    seq(|s|, i requires 0 <= i < |s| => s[|s| - 1 - i])
  }

  /** What eight steps of the division subtract: the leading coefficients, four of them fed back once. */
  function Feedback(r: Register, bits: Byte): Byte {
    seq(8, i requires 0 <= i < 8 => (r[i] != bits[i]) != (i >= 4 && r[i - 4] != bits[i - 4]))
  }

  /** One step of the division, with its leading coefficient f. */
  function Subtracted(r: Register, f: bool): Register {
    [r[1], r[2], r[3], r[4] != f, r[5], r[6], r[7], r[8], r[9], r[10], r[11] != f, r[12], r[13], r[14], r[15], f]
  }

  lemma OneStep(r: Register, bit: bool)
    ensures CrcBit(r, bit) == Subtracted(r, r[0] != bit)
  {
  }

  lemma FirstStep(r: Register, bits: seq<bool>)
    requires bits != []
    ensures CrcBits(r, bits) == CrcBits(Subtracted(r, r[0] != bits[0]), bits[1..])
  {
    hide CrcBit, Subtracted;
    OneStep(r, bits[0]);
  }

  /** Four steps, none of which sees what another one subtracted. */
  function Later(r: Register, a: bool, b: bool, c: bool, d: bool): Register {
    [r[4] != a, r[5] != b, r[6] != c, r[7] != d, r[8], r[9], r[10], r[11] != a,
     r[12] != b, r[13] != c, r[14] != d, r[15], a, b, c, d]
  }

  lemma FourSubtracted(r: Register, a: bool, b: bool, c: bool, d: bool)
    ensures
      var r1 := Subtracted(r, a);
      var r2 := Subtracted(r1, b);
      var r3 := Subtracted(r2, c);
      r1[0] == r[1] && r2[0] == r[2] && r3[0] == r[3] && Subtracted(r3, d) == Later(r, a, b, c, d)
  {
  }

  lemma FourSteps(r: Register, bits: seq<bool>)
    requires |bits| >= 4
    ensures CrcBits(r, bits) ==
            CrcBits(Later(r, r[0] != bits[0], r[1] != bits[1], r[2] != bits[2], r[3] != bits[3]), bits[4..])
  {
    hide CrcBits, Subtracted, Later;
    var (a, b, c, d) := (r[0] != bits[0], r[1] != bits[1], r[2] != bits[2], r[3] != bits[3]);
    FourSubtracted(r, a, b, c, d);
    var r1 := Subtracted(r, a);
    var r2 := Subtracted(r1, b);
    var r3 := Subtracted(r2, c);
    assert bits[1..][1..] == bits[2..] && bits[2..][1..] == bits[3..] && bits[3..][1..] == bits[4..];
    FirstStep(r, bits);
    FirstStep(r1, bits[1..]);
    FirstStep(r2, bits[2..]);
    FirstStep(r3, bits[3..]);
  }

  /** What is left of the register after eight steps. */
  function Left(r: Register, f: Byte): Register {
    Xor(Xor(r[8..] + Zeros(8), Zeros(8) + f), Xor(Zeros(3) + f + Zeros(5), f[4..] + Zeros(12)))
  }

  lemma LeftBits(r: Register, f: Byte, i: nat)
    requires i < 16
    ensures Left(r, f)[i] ==
      (((i < 8 && r[i + 8]) != (i >= 8 && f[i - 8])) != ((3 <= i < 11 && f[i - 3]) != (i < 4 && f[i + 4])))
  {
  }

  lemma LaterBits(r: Register, f: Byte, k: nat, i: nat)
    requires k <= 4 && i < 16
    ensures
      Later(r, f[k], f[k + 1], f[k + 2], f[k + 3])[i] ==
      (((i < 12 && r[i + 4]) != (i < 4 && f[k + i])) != ((7 <= i < 11 && f[k + i - 7]) != (i >= 12 && f[k + i - 12])))
  {
  }

  lemma EightBits(r: Register, f: Byte, i: nat)
    requires i < 16
    ensures
      var s := Later(r, f[0], f[1], f[2], f[3]);
      Later(s, f[4], f[5], f[6], f[7])[i] == Left(r, f)[i]
  {
    hide Later, Left;
    LeftBits(r, f, i);
    LaterBits(Later(r, f[0], f[1], f[2], f[3]), f, 4, i);
    if i < 12 {
      LaterBits(r, f, 0, i + 4);
    }
  }

  lemma EightLater(r: Register, f: Byte)
    ensures
      var s := Later(r, f[0], f[1], f[2], f[3]);
      Later(s, f[4], f[5], f[6], f[7]) == Left(r, f)
  {
    hide Later, Left;
    var s := Later(r, f[0], f[1], f[2], f[3]);
    var t := Later(s, f[4], f[5], f[6], f[7]);
    forall i | 0 <= i < 16 ensures t[i] == Left(r, f)[i] {
      EightBits(r, f, i);
    }
  }

  /** Eight steps at once. */
  lemma EightSteps(r: Register, bits: Byte)
    ensures CrcBits(r, bits) == Left(r, Feedback(r, bits))
  {
    var f := Feedback(r, bits);
    var s := Later(r, f[0], f[1], f[2], f[3]);
    FourSteps(r, bits);
    FourSteps(s, bits[4..]);
    EightLater(r, f);
    assert bits[4..][4..] == [];
    LaterStarts(r, f[0], f[1], f[2], f[3]);
    hide Later, Left;
  }

  lemma LaterStarts(r: Register, a: bool, b: bool, c: bool, d: bool)
    ensures var s := Later(r, a, b, c, d);
      s[0] == (r[4] != a) && s[1] == (r[5] != b) && s[2] == (r[6] != c) && s[3] == (r[7] != d)
  {
  }

  // ---------- The two are one ----------

  lemma MixedIsFeedback(data: Byte, crc: Register)
    ensures Reverse(Mixed(data, crc)) == Feedback(Reverse(crc), Reverse(data))
  {
  }

  lemma AccumulateBit(data: Byte, crc: Register, i: nat)
    requires i < 16
    ensures var tmp := Mixed(data, crc);
      AccumulateBits(data, crc)[i] ==
      (((i >= 8 && crc[i - 8]) != (i < 8 && tmp[i])) != ((5 <= i < 13 && tmp[i - 5]) != (i >= 12 && tmp[i - 12])))
  {
    hide Mixed;
  }

  lemma AccumulateLeft(data: Byte, crc: Register)
    ensures Reverse(AccumulateBits(data, crc)) == Left(Reverse(crc), Feedback(Reverse(crc), Reverse(data)))
  {
    hide Mixed, Feedback, Left, AccumulateBits;
    var tmp, r, f := Mixed(data, crc), Reverse(crc), Feedback(Reverse(crc), Reverse(data));
    MixedIsFeedback(data, crc);
    forall i | 0 <= i < 16 ensures Reverse(AccumulateBits(data, crc))[i] == Left(r, f)[i] {
      AccumulateBit(data, crc, 15 - i);
      LeftBits(r, f, i);
      assert forall k :: 0 <= k < 8 ==> f[k] == tmp[7 - k];
    }
  }

  /** Read from the other end, one call of crc_accumulate is eight steps of dividing by x^16 + x^12 + x^5 + 1. */
  lemma AccumulateDivides(data: Byte, crc: Register)
    ensures Reverse(AccumulateBits(data, crc)) == CrcBits(Reverse(crc), Reverse(data))
  {
    hide Feedback, Left, AccumulateBits, CrcBits, Reverse;
    EightSteps(Reverse(crc), Reverse(data));
    AccumulateLeft(data, crc);
  }

  /** The message, each byte from its least significant bit. */
  function Reflected(bytes: seq<u8>): seq<bool> {
    if bytes == [] then [] else Reflected(bytes[..|bytes| - 1]) + Reverse(BitsOf(bytes[|bytes| - 1]))
  }

  lemma {:induction false} CrcBitsConcat(r: Register, a: seq<bool>, b: seq<bool>)
    ensures CrcBits(r, a + b) == CrcBits(CrcBits(r, a), b)
    decreases a
  {
    hide CrcBit;
    if a == [] {
      assert a + b == b;
    } else {
      assert (a + b)[1..] == a[1..] + b;
      CrcBitsConcat(CrcBit(r, a[0]), a[1..], b);
    }
  }

  /** The checksum of a MAVLink frame is the CAN transfer CRC of the message with every byte, and the register, reflected;
      so CrcIsRemainder says of it, too, that it is a remainder of polynomial division. */
  lemma {:induction false} ChecksumDivides(start: u16, bytes: seq<u8>)
    ensures Reverse(WordBits(M.Crc(Accumulate, start, bytes))) == CrcBits(Reverse(WordBits(start)), Reflected(bytes))
    decreases |bytes|
  {
    hide WordBits, WordOf, AccumulateBits, BitsOf, Reverse, CrcBits;
    if bytes == [] {
      CrcNothing(Reverse(WordBits(start)));
    } else {
      var front, last := bytes[..|bytes| - 1], bytes[|bytes| - 1];
      ChecksumDivides(start, front);
      var crc := WordBits(M.Crc(Accumulate, start, front));
      WordBitsOf(AccumulateBits(BitsOf(last), crc));
      AccumulateDivides(BitsOf(last), crc);
      CrcBitsConcat(Reverse(WordBits(start)), Reflected(front), Reverse(BitsOf(last)));
    }
  }

  lemma CrcNothing(r: Register)
    ensures CrcBits(r, []) == r
  {
  }
}
