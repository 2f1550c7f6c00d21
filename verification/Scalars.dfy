/** DSDL scalars as bit strings: bytes least significant first, bits within a byte most significant first. */
module Scalars {
  import opened Bits

  function Pow2(n: nat): (p: nat)
    ensures p > 0
  {
    if n == 0 then 1 else 2 * Pow2(n - 1)
  }

  /** The number a bit string denotes, most significant bit first. */
  function Number(bits: seq<bool>): nat {
    if bits == [] then 0 else 2 * Number(bits[..|bits| - 1]) + (if bits[|bits| - 1] then 1 else 0)
  }

  /** The n lowest bits of v, most significant first. */
  function Binary(v: nat, n: nat): (bits: seq<bool>)
    ensures |bits| == n
  {
    if n == 0 then [] else Binary(v / 2, n - 1) + [v % 2 == 1]
  }

  lemma {:induction false} NumberOfBinary(v: nat, n: nat)
    ensures Number(Binary(v, n)) == v % Pow2(n)
  {
    if n > 0 {
      var bits := Binary(v, n);
      assert bits[..n - 1] == Binary(v / 2, n - 1);
      NumberOfBinary(v / 2, n - 1);
      HalfMod(v, Pow2(n - 1));
    }
  }

  lemma HalfMod(v: nat, p: nat)
    requires p > 0
    ensures 2 * ((v / 2) % p) + v % 2 == v % (2 * p)
  {
    var h := v / 2;
    var r := 2 * (h % p) + v % 2;
    assert h == p * (h / p) + h % p;
    assert v == (2 * p) * (h / p) + r;
    UniqueRemainder(v, 2 * p, h / p, r);
  }

  lemma UniqueRemainder(v: int, m: int, q: int, r: int)
    requires 0 <= r < m && v == m * q + r
    ensures v % m == r && v / m == q
  {
    var d := v / m - q;
    assert v == m * (v / m) + v % m && 0 <= v % m < m;
    assert m * (v / m) == m * q + m * d;
    assert d >= 1 ==> m * d >= m;
    assert d <= -1 ==> m * d + m <= 0;
  }

  lemma {:induction false} NumberBound(bits: seq<bool>)
    ensures Number(bits) < Pow2(|bits|)
  {
    if bits != [] {
      NumberBound(bits[..|bits| - 1]);
    }
  }

  lemma {:induction false} BinaryOfNumber(bits: seq<bool>)
    ensures Binary(Number(bits), |bits|) == bits
  {
    if bits != [] {
      BinaryOfNumber(bits[..|bits| - 1]);
      assert bits == bits[..|bits| - 1] + [bits[|bits| - 1]];
    }
  }

  lemma {:induction false} NumberConcat(a: seq<bool>, b: seq<bool>)
    ensures Number(a + b) == Number(a) * Pow2(|b|) + Number(b)
    decreases b
  {
    if b == [] {
      assert a + b == a;
    } else {
      var b' := b[..|b| - 1];
      assert (a + b)[..|a + b| - 1] == a + b';
      NumberConcat(a, b');
      Doubled(Number(a), Pow2(|b'|));
    }
  }

  lemma Doubled(a: nat, p: nat)
    ensures a * (2 * p) == 2 * (a * p)
  {
  }

  /** A byte denotes the same number either way. */
  lemma ByteNumber(b: Byte)
    ensures Number(b) == ValueOf(b)
  {
    assert b == b[..4] + b[4..];
    NumberConcat(b[..4], b[4..]);
    NibbleNumber(b[..4]);
    NibbleNumber(b[4..]);
    Pow2Nibble();
  }

  lemma Pow2Nibble()
    ensures Pow2(4) == 16 && Pow2(8) == 256
  {
    assert Pow2(2) == 4;
    assert Pow2(4) == 16;
    assert Pow2(6) == 64;
  }

  lemma NibbleNumber(s: Nibble)
    ensures Number(s) == NibbleValue(s)
  {
    var s3, s2, s1 := s[..3], s[..2], s[..1];
    assert s[..3][..2] == s2 && s2[..1] == s1 && s1[..0] == [];
    assert Number(s1) == if s[0] then 1 else 0;
    assert Number(s2) == 2 * Number(s1) + if s[1] then 1 else 0;
    assert Number(s3) == 2 * Number(s2) + if s[2] then 1 else 0;
  }

  // ---------- Scalars ----------

  /** Value of a serialized scalar: whole bytes, least significant first, then the remaining high bits. */
  function ScalarValue(bits: seq<bool>): nat {
    if |bits| <= 8 then Number(bits) else Number(bits[..8]) + 256 * ScalarValue(bits[8..])
  }

  function ScalarBits(v: nat, n: nat): (bits: seq<bool>)
    ensures |bits| == n
  {
    if n <= 8 then Binary(v, n) else Binary(v % 256, 8) + ScalarBits(v / 256, n - 8)
  }

  lemma {:induction false} ScalarBound(bits: seq<bool>)
    ensures ScalarValue(bits) < Pow2(|bits|)
  {
    if |bits| <= 8 {
      NumberBound(bits);
    } else {
      ScalarBound(bits[8..]);
      NumberBound(bits[..8]);
      Pow2Nibble();
      Pow2Add(8, |bits| - 8);
    }
  }

  lemma {:induction false} Pow2Add(a: nat, b: nat)
    ensures Pow2(a + b) == Pow2(a) * Pow2(b)
  {
    if b > 0 {
      Pow2Add(a, b - 1);
    }
  }

  /** Reading back what was written gives the value truncated to the bit length. */
  lemma {:induction false} ScalarRoundTrip(v: nat, n: nat)
    ensures ScalarValue(ScalarBits(v, n)) == v % Pow2(n)
    decreases n
  {
    hide Number, Binary, Pow2;
    if n <= 8 {
      NumberOfBinary(v, n);
    } else {
      var low, high := Binary(v % 256, 8), ScalarBits(v / 256, n - 8);
      assert (low + high)[..8] == low && (low + high)[8..] == high;
      NumberOfBinary(v % 256, 8);
      ScalarRoundTrip(v / 256, n - 8);
      Pow2Nibble();
      Pow2Add(8, n - 8);
      ByteMod(v, Pow2(n - 8));
    }
  }

  lemma {:induction false} ScalarOfValue(bits: seq<bool>)
    ensures ScalarBits(ScalarValue(bits), |bits|) == bits
    decreases |bits|
  {
    hide Number, Binary;
    if |bits| <= 8 {
      BinaryOfNumber(bits);
    } else {
      ScalarOfValue(bits[8..]);
      NumberBound(bits[..8]);
      Pow2Nibble();
      UniqueRemainder(ScalarValue(bits), 256, ScalarValue(bits[8..]), Number(bits[..8]));
      BinaryOfNumber(bits[..8]);
      assert bits == bits[..8] + bits[8..];
    }
  }

  /** Only the lowest n bits of a value are written. */
  lemma ScalarLow(v: nat, n: nat, m: nat)
    requires n <= m
    ensures ScalarBits(v % Pow2(m), n) == ScalarBits(v, n)
  {
    hide ScalarBits, ScalarValue;
    ScalarRoundTrip(v, n);
    ScalarRoundTrip(v % Pow2(m), n);
    Pow2Add(m - n, n);
    ModMod(v, Pow2(m - n), Pow2(n));
    ScalarOfValue(ScalarBits(v, n));
    ScalarOfValue(ScalarBits(v % Pow2(m), n));
  }

  lemma ByteMod(v: nat, p: nat)
    requires p > 0
    ensures v % 256 + 256 * ((v / 256) % p) == v % (256 * p)
  {
    var h := v / 256;
    var r := 256 * (h % p) + v % 256;
    assert h == p * (h / p) + h % p;
    assert v == (256 * p) * (h / p) + r;
    UniqueRemainder(v, 256 * p, h / p, r);
  }

  /** Two's complement reading of an n-bit number. */
  function Signed(v: nat, n: nat): int
    requires n > 0
  {
    if v >= Pow2(n - 1) then v - Pow2(n) else v
  }

  /** A signed value in range survives being written and read back. */
  lemma SignedRoundTrip(v: int, n: nat)
    requires n > 0 && v + Pow2(n - 1) >= 0 && v < Pow2(n - 1)
    ensures Signed(ScalarValue(ScalarBits(v % Pow2(n), n)), n) == v
  {
    ScalarRoundTrip(v % Pow2(n), n);
    if v >= 0 {
      UniqueRemainder(v, Pow2(n), 0, v);
      UniqueRemainder(v % Pow2(n), Pow2(n), 0, v);
    } else {
      UniqueRemainder(v, Pow2(n), -1, v + Pow2(n));
      UniqueRemainder(v % Pow2(n), Pow2(n), 0, v + Pow2(n));
    }
  }

  // ---------- Bytes of a scalar ----------

  function Smaller(a: nat, b: nat): nat { if a < b then a else b }

  /** The k-th group of eight bits, shorter or empty at the end. */
  function Group(bits: seq<bool>, k: nat): seq<bool> {
    bits[Smaller(8 * k, |bits|)..Smaller(8 * k + 8, |bits|)]
  }

  lemma GroupAt(bits: seq<bool>, i: nat)
    requires i < |bits|
    ensures i % 8 < |Group(bits, i / 8)| && Group(bits, i / 8)[i % 8] == bits[i]
  {
  }

  function LittleEndian(bytes: seq<u8>): nat {
    if bytes == [] then 0 else bytes[0] + 256 * LittleEndian(bytes[1..])
  }

  /** A storage whose bytes are the groups' numbers holds the scalar, least significant byte first. */
  lemma {:induction false} GroupsValue(bytes: seq<u8>, bits: seq<bool>)
    requires |bits| <= 8 * |bytes|
    requires forall k :: 0 <= k < |bytes| ==> bytes[k] == Number(Group(bits, k))
    ensures LittleEndian(bytes) == ScalarValue(bits)
    decreases bytes
  {
    hide Number;
    if bytes == [] {
      assert bits == [] && ScalarValue(bits) == Number([]);
      NumberNothing();
    } else {
      var rest := bits[Smaller(8, |bits|)..];
      forall k | 0 <= k < |bytes| - 1 ensures bytes[1..][k] == Number(Group(rest, k)) {
        assert Group(bits, k + 1) == Group(rest, k);
      }
      GroupsValue(bytes[1..], rest);
      assert Group(bits, 0) == bits[..Smaller(8, |bits|)];
      if |bits| <= 8 {
        assert bits[..|bits|] == bits && rest == [];
        NumberNothing();
      }
    }
  }

  lemma NumberNothing()
    ensures Number([]) == 0
  {
  }

  lemma {:induction false} NumberZeros(n: nat, bits: seq<bool>)
    ensures Number(seq(n, _ => false) + bits) == Number(bits)
  {
    NumberConcat(seq(n, _ => false), bits);
    ZerosNumber(n);
  }

  lemma {:induction false} ZerosNumber(n: nat)
    ensures Number(seq(n, _ => false)) == 0
  {
    if n > 0 {
      assert seq(n, _ => false)[..n - 1] == seq(n - 1, _ => false);
      ZerosNumber(n - 1);
    }
  }

  /** The bytes of v, least significant first. */
  function BytesOf(v: nat, n: nat): (bytes: seq<u8>)
    ensures |bytes| == n
  {
    if n == 0 then [] else [v % 256] + BytesOf(v / 256, n - 1)
  }

  /** The k-th group of a scalar comes from the k-th byte of its value. */
  lemma {:induction false} ScalarGroup(v: nat, n: nat, k: nat, size: nat)
    requires 8 * k < n && k < size
    ensures Group(ScalarBits(v, n), k) == Binary(BytesOf(v, size)[k], Smaller(8, n - 8 * k))
    decreases k
  {
    hide Binary;
    var bits := ScalarBits(v, n);
    if k == 0 {
      BinaryLow(v, Smaller(8, n));
      if n > 8 {
        assert bits[..8] == Binary(v % 256, 8);
        BinaryLow(v % 256, 8);
      }
    } else {
      assert Group(bits, k) == Group(ScalarBits(v / 256, n - 8), k - 1) by {
        assert bits[8..] == ScalarBits(v / 256, n - 8);
      }
      ScalarGroup(v / 256, n - 8, k - 1, size - 1);
    }
  }

  lemma BinaryLow(v: nat, n: nat)
    requires n <= 8
    ensures Binary(v % 256, n) == Binary(v, n)
  {
    NumberOfBinary(v, n);
    NumberOfBinary(v % 256, n);
    Pow2Nibble();
    Pow2Add(8 - n, n);
    ModMod(v, Pow2(8 - n), Pow2(n));
    BinaryOfNumber(Binary(v, n));
    BinaryOfNumber(Binary(v % 256, n));
  }

  lemma ModMod(v: nat, a: nat, b: nat)
    requires a > 0 && b > 0 && a * b > 0
    ensures (v % (a * b)) % b == v % b
  {
    var w := v % (a * b);
    var q := v / (a * b);
    assert v == (a * b) * q + w;
    assert w == b * (w / b) + w % b;
    assert v == b * (a * q + w / b) + w % b by {
      assert (a * b) * q == b * (a * q);
    }
    UniqueRemainder(v, b, a * q + w / b, w % b);
  }

  /** A shorter binary is the end of a longer one. */
  lemma {:induction false} BinarySuffix(v: nat, n: nat, r: nat)
    requires r <= n
    ensures Binary(v, n)[n - r..] == Binary(v, r)
  {
    if r > 0 {
      BinarySuffix(v / 2, n - 1, r - 1);
      assert Binary(v, n)[n - r..] == Binary(v / 2, n - 1)[n - r..] + [v % 2 == 1];
    }
  }

  lemma ByteBinary(x: u8)
    ensures BitsOf(x) == Binary(x, 8)
  {
    ByteNumber(BitsOf(x));
    ValueOfBits(x);
    BinaryOfNumber(BitsOf(x));
  }
}
