/** The transfer CRC (components/airlink_can/libcanard/canard.c): a 16-bit register, most significant
    bit first, dividing by x^16 + x^12 + x^5 + 1. */
module TransferCrc {
  import opened Bits

  type Register = s: seq<bool> | |s| == 16
    witness [false, false, false, false, false, false, false, false,
             false, false, false, false, false, false, false, false]

  const CLEAR: Register := BitsOf(0) + BitsOf(0)
  const INITIAL: Register := BitsOf(0xFF) + BitsOf(0xFF)

  function Shift(r: Register): Register { r[1..] + [false] }

  /** Exclusive or with 0x1021. */
  function AddPolynomial(r: Register): Register {
    r[3 := !r[3]][10 := !r[10]][15 := !r[15]]
  }

  /** Definition of the CRC: divide, one message bit at a time. */
  function CrcBit(r: Register, bit: bool): Register {
    if r[0] != bit then AddPolynomial(Shift(r)) else Shift(r)
  }

  function CrcBits(r: Register, bits: seq<bool>): Register
    decreases bits
  {
    if bits == [] then r else CrcBits(CrcBit(r, bits[0]), bits[1..])
  }

  /** The CRC of a byte sequence, continuing from `r`. */
  function Crc(r: Register, bytes: seq<u8>): Register {
    if bytes == [] then r else CrcBits(Crc(r, bytes[..|bytes| - 1]), BitsOf(bytes[|bytes| - 1]))
  }

  /** Feeding the CRC piece by piece, as the receiver does frame by frame, gives the CRC of the whole. */
  lemma {:induction false} CrcConcat(r: Register, a: seq<u8>, b: seq<u8>)
    ensures Crc(Crc(r, a), b) == Crc(r, a + b)
  {
    if b == [] {
      assert a + b == a;
    } else {
      assert (a + b)[..|a + b| - 1] == a + b[..|b| - 1];
      CrcConcat(r, a, b[..|b| - 1]);
    }
  }

  // ---------- The CRC is a remainder ----------

  function Zeros(n: nat): (s: seq<bool>)
    ensures |s| == n
  {
    seq(n, _ => false)
  }

  /** x^16 + x^12 + x^5 + 1, highest coefficient first. */
  const GENERATOR: seq<bool> := [true] + Zeros(3) + [true] + Zeros(6) + [true] + Zeros(4) + [true]

  /** Sum of two polynomials over the integers modulo two. */
  function Sum(a: seq<bool>, b: seq<bool>): (s: seq<bool>)
    requires |a| == |b|
    ensures |s| == |a|
  {
    seq(|a|, i requires 0 <= i < |a| => a[i] != b[i])
  }

  /** The product of a polynomial and the generator. */
  function Multiple(q: seq<bool>): (s: seq<bool>)
    ensures |s| == |q| + 16
  {
    if q == [] then Zeros(16)
    else Sum((if q[0] then GENERATOR else Zeros(17)) + Zeros(|q| - 1), [false] + Multiple(q[1..]))
  }

  /** The message with sixteen zeros behind it, and the initial register added to its first sixteen bits. */
  function Dividend(r: Register, bits: seq<bool>): (s: seq<bool>)
    ensures |s| == |bits| + 16
  {
    Sum(r + Zeros(|bits|), bits + Zeros(16))
  }

  function Quotient(r: Register, bits: seq<bool>): (q: seq<bool>)
    ensures |q| == |bits|
    decreases bits
  {
    if bits == [] then [] else [r[0] != bits[0]] + Quotient(CrcBit(r, bits[0]), bits[1..])
  }

  /** The CRC is the remainder of dividing by the generator: what is left of the dividend after the multiple given by
      the quotient has been taken away, and it is of lower degree than the generator. */
  lemma {:induction false} CrcIsRemainder(r: Register, bits: seq<bool>)
    ensures Dividend(r, bits) == Sum(Multiple(Quotient(r, bits)), Zeros(|bits|) + CrcBits(r, bits))
    decreases bits
  {
    hide CrcBit;
    if bits == [] {
      assert Dividend(r, bits) == r && Zeros(0) + r == r;
    } else {
      var rest, r1 := bits[1..], CrcBit(r, bits[0]);
      CrcIsRemainder(r1, rest);
      DividendStep(r, bits);
      var top := (if r[0] != bits[0] then GENERATOR else Zeros(17)) + Zeros(|rest|);
      var q := Quotient(r, bits);
      assert q[1..] == Quotient(r1, rest);
      var product, end := Multiple(q[1..]), Zeros(|rest|) + CrcBits(r1, rest);
      Regrouped(top, product, end);
      assert [false] + end == Zeros(|bits|) + CrcBits(r, bits);
    }
  }

  /** One division step removes the leading coefficient. */
  lemma DividendStep(r: Register, bits: seq<bool>)
    requires bits != []
    ensures Dividend(r, bits) ==
            Sum((if r[0] != bits[0] then GENERATOR else Zeros(17)) + Zeros(|bits| - 1),
                [false] + Dividend(CrcBit(r, bits[0]), bits[1..]))
  {
    var n := |bits| - 1;
    var top := (if r[0] != bits[0] then GENERATOR else Zeros(17)) + Zeros(n);
    var next := [false] + Dividend(CrcBit(r, bits[0]), bits[1..]);
    forall i | 0 <= i < n + 17 ensures Dividend(r, bits)[i] == Sum(top, next)[i] {
      if 0 < i < 17 {
        StepBit(r, bits[0], i);
      }
    }
  }

  lemma StepBit(r: Register, bit: bool, i: nat)
    requires 0 < i < 17
    ensures CrcBit(r, bit)[i - 1] == ((if i < 16 then r[i] else false) != (r[0] != bit && GENERATOR[i]))
  {
    assert GENERATOR[i] <==> i == 4 || i == 11 || i == 16;
  }

  lemma Regrouped(top: seq<bool>, product: seq<bool>, end: seq<bool>)
    requires |top| == |product| + 1 == |end| + 1
    ensures Sum(top, [false] + Sum(product, end)) == Sum(Sum(top, [false] + product), [false] + end)
  {
  }

  /** Only one remainder is possible. */
  lemma {:induction false} RemainderUnique(q: seq<bool>, q': seq<bool>, a: Register, b: Register)
    requires |q| == |q'| && Sum(Multiple(q), Zeros(|q|) + a) == Sum(Multiple(q'), Zeros(|q|) + b)
    ensures q == q' && a == b
    decreases q
  {
    if q == [] {
      var x, y := Sum(Multiple(q), Zeros(|q|) + a), Sum(Multiple(q'), Zeros(|q|) + b);
      forall i | 0 <= i < 16 ensures a[i] == b[i] {
        assert x[i] == a[i] && y[i] == b[i];
      }
    } else {
      hide Multiple, Sum;
      SameFirst(q, q', a, b);
      SameRest(q, q', a, b);
      RemainderUnique(q[1..], q'[1..], a, b);
    }
  }

  lemma SameFirst(q: seq<bool>, q': seq<bool>, a: Register, b: Register)
    requires |q| == |q'| && q != [] && Sum(Multiple(q), Zeros(|q|) + a) == Sum(Multiple(q'), Zeros(|q|) + b)
    ensures q[0] == q'[0]
  {
    var x, y := Sum(Multiple(q), Zeros(|q|) + a), Sum(Multiple(q'), Zeros(|q|) + b);
    assert x[0] == q[0] && y[0] == q'[0];
  }

  lemma SameRest(q: seq<bool>, q': seq<bool>, a: Register, b: Register)
    requires |q| == |q'| && q != [] && Sum(Multiple(q), Zeros(|q|) + a) == Sum(Multiple(q'), Zeros(|q|) + b)
    requires q[0] == q'[0]
    ensures Sum(Multiple(q[1..]), Zeros(|q| - 1) + a) == Sum(Multiple(q'[1..]), Zeros(|q| - 1) + b)
  {
    hide Multiple, Sum, Zeros;
    TakeStep(q, a);
    TakeStep(q', b);
    var top := (if q[0] then GENERATOR else Zeros(17)) + Zeros(|q| - 1);
    SumInjective(top, Sum(Multiple(q[1..]), Zeros(|q| - 1) + a), Sum(Multiple(q'[1..]), Zeros(|q| - 1) + b));
  }

  lemma TakeStep(q: seq<bool>, a: Register)
    requires q != []
    ensures Sum(Multiple(q), Zeros(|q|) + a) ==
            Sum((if q[0] then GENERATOR else Zeros(17)) + Zeros(|q| - 1), [false] + Sum(Multiple(q[1..]), Zeros(|q| - 1) + a))
  {
    hide Multiple, Sum, Zeros;
    var top, e := (if q[0] then GENERATOR else Zeros(17)) + Zeros(|q| - 1), Zeros(|q| - 1) + a;
    MultipleStep(q);
    ZerosStep(|q| - 1, a);
    Regrouped(top, Multiple(q[1..]), e);
  }

  lemma MultipleStep(q: seq<bool>)
    requires q != []
    ensures Multiple(q) == Sum((if q[0] then GENERATOR else Zeros(17)) + Zeros(|q| - 1), [false] + Multiple(q[1..]))
  {
    hide Sum, Zeros;
  }

  lemma ZerosStep(n: nat, a: seq<bool>)
    ensures Zeros(n + 1) + a == [false] + (Zeros(n) + a)
  {
    assert Zeros(n + 1) == [false] + Zeros(n);
  }

  lemma SumInjective(top: seq<bool>, u: seq<bool>, v: seq<bool>)
    requires |top| == |u| + 1 == |v| + 1 && Sum(top, [false] + u) == Sum(top, [false] + v)
    ensures u == v
  {
    forall i | 0 <= i < |u| ensures u[i] == v[i] {
      assert Sum(top, [false] + u)[i + 1] == (top[i + 1] != u[i]);
      assert Sum(top, [false] + v)[i + 1] == (top[i + 1] != v[i]);
    }
  }

  // ---------- The loops of the source ----------

  /** Exclusive or of pending message bits into the top of the register. */
  function Inject(r: Register, bits: seq<bool>): Register
    requires |bits| <= 8
  {
    seq(16, i requires 0 <= i < 16 => if i < |bits| then r[i] != bits[i] else r[i])
  }

  /** Shifting a register with pending bits consumes the first of them. */
  lemma InjectShift(r: Register, bits: seq<bool>)
    requires 0 < |bits| <= 8
    ensures
      var c := Inject(r, bits);
      (if c[0] then AddPolynomial(Shift(c)) else Shift(c)) == Inject(CrcBit(r, bits[0]), bits[1..])
  {
    var c := Inject(r, bits);
    var left := if c[0] then AddPolynomial(Shift(c)) else Shift(c);
    var right := Inject(CrcBit(r, bits[0]), bits[1..]);
    forall i | 0 <= i < 16 ensures left[i] == right[i] {
    }
  }

  /** The bitwise loop of the source: the whole byte goes in first, then eight shifts. */
  method CrcAddByte(crc: Register, b: u8) returns (r: Register)
    ensures r == CrcBits(crc, BitsOf(b))
  {
    hide AddPolynomial, Inject;
    var bits := BitsOf(b);
    r := Inject(crc, bits);
    ghost var expected := crc;
    var j := 0;
    while j < 8
      invariant 0 <= j <= 8
      invariant r == Inject(expected, bits[j..])
      invariant CrcBits(expected, bits[j..]) == CrcBits(crc, bits)
    {
      InjectShift(expected, bits[j..]);
      expected := CrcBit(expected, bits[j]);
      assert bits[j..][1..] == bits[j + 1..];
      r := if r[0] then AddPolynomial(Shift(r)) else Shift(r);
      j := j + 1;
    }
    InjectNothing(expected);
  }

  lemma InjectNothing(r: Register)
    ensures Inject(r, []) == r
  {
  }

  method CrcAdd(crc: Register, bytes: seq<u8>) returns (r: Register)
    ensures r == Crc(crc, bytes)
  {
    r := crc;
    for i := 0 to |bytes|
      invariant r == Crc(crc, bytes[..i])
    {
      assert bytes[..i + 1][..i] == bytes[..i];
      r := CrcAddByte(r, bytes[i]);
    }
    assert bytes[..|bytes|] == bytes;
  }

  /** The eight bytes of a data type signature, least significant first. */
  function SignatureBytes(signature: u64): seq<u8> {
    [signature % 0x100, (signature / 0x100) % 0x100, (signature / 0x1_0000) % 0x100,
     (signature / 0x100_0000) % 0x100, (signature / 0x1_0000_0000) % 0x100,
     (signature / 0x100_0000_0000) % 0x100, (signature / 0x1_0000_0000_0000) % 0x100,
     (signature / 0x100_0000_0000_0000) % 0x100]
  }

  /** The two CRC bytes at the start of a multi-frame transfer, low byte first. */
  function CrcBytes(crc: Register): (bytes: seq<u8>)
    ensures |bytes| == 2
  {
    [ValueOf(crc[8..]), ValueOf(crc[..8])]
  }

  function CrcFromBytes(low: u8, high: u8): Register {
    BitsOf(high) + BitsOf(low)
  }

  lemma CrcBytesRoundTrip(crc: Register)
    ensures CrcFromBytes(CrcBytes(crc)[0], CrcBytes(crc)[1]) == crc
  {
    BitsOfValue(crc[8..]);
    BitsOfValue(crc[..8]);
  }

  /** The discriminator of an anonymous broadcast: CRC bits 14 to 1, an even 15-bit number. */
  function Discriminator(crc: Register): (d: nat)
    ensures d < 0x8000 && d % 2 == 0
  {
    var high: Byte := crc[..8][0 := false];
    var low: Byte := crc[8..][7 := false];
    assert ValueOf(high) < 0x80 by { ClearTop(high); }
    assert ValueOf(low) % 2 == 0 by { ClearBottom(low); }
    ValueOf(high) * 0x100 + ValueOf(low)
  }

  lemma ClearTop(b: Byte)
    requires !b[0]
    ensures ValueOf(b) < 0x80
  {
    assert b[..4][0] == b[0];
  }

  lemma ClearBottom(b: Byte)
    requires !b[7]
    ensures ValueOf(b) % 2 == 0
  {
    assert b[4..][3] == b[7];
  }
}
