/** The uavcan.tunnel.Targetted message: fields packed at bit offsets, the byte array taking the rest of the
    payload without a length field (tail array optimization). */
module Targetted {
  import opened Bits
  import opened BitArrays
  import opened Scalars
  import opened ScalarCodec
  import opened CanardModel
  import opened CanardPoolFacts
  import opened CanardInstance

  const BUFFER_MAX := 120
  const MAX_SIZE := 127
  const HEADER_BITS := 48

  /** `serialId` is an eight-bit signed field of which five bits travel. */
  datatype Message = Message(
    protocol: u8, targetNode: u8, serialId: int, options: u8, baudrate: u32, buffer: seq<u8>)

  /** Every field fits the bits it has on the wire. */
  predicate InRange(m: Message) {
    m.targetNode < 0x80 && -16 <= m.serialId < 16 && m.options < 16 && m.baudrate < 0x100_0000 && |m.buffer| <= BUFFER_MAX
  }

  // ---------- Wire format ----------

  function BytesBits(s: seq<u8>): (bits: seq<bool>)
    ensures |bits| == 8 * |s|
  {
    if s == [] then [] else BytesBits(s[..|s| - 1]) + ScalarBits(s[|s| - 1], 8)
  }

  function HeaderBits(m: Message): (bits: seq<bool>)
    ensures |bits| == HEADER_BITS
  {
    ScalarBits(m.protocol, 8) + ScalarBits(m.targetNode, 7) + ScalarBits(m.serialId % 0x100, 5) +
    ScalarBits(m.options, 4) + ScalarBits(m.baudrate, 24)
  }

  /** The bytes that go onto the bus. */
  function EncodedPayload(m: Message): seq<u8> {
    Pack(HeaderBits(m)) + m.buffer
  }

  function Pack(bits: seq<bool>): (s: seq<u8>)
    requires |bits| % 8 == 0
    ensures |s| == |bits| / 8
    decreases |bits|
  {
    if bits == [] then [] else Pack(bits[..|bits| - 8]) + [ValueOf(bits[|bits| - 8..])]
  }

  /** The first bits of a buffer. */
  ghost predicate Begins(s: seq<u8>, bits: seq<bool>) {
    |bits| <= 8 * |s| && forall i :: 0 <= i < |bits| ==> Bit(s, i) == bits[i]
  }

  lemma BeginsMore(before: seq<u8>, after: seq<u8>, a: seq<bool>, b: seq<bool>)
    requires Begins(before, a) && Wrote(before, after, |a|, b)
    ensures Begins(after, a + b)
  {
    hide Bit;
  }

  /** Whole bytes of a buffer are determined by its bits. */
  lemma {:induction false} BeginsPack(s: seq<u8>, bits: seq<bool>)
    requires Begins(s, bits) && |bits| % 8 == 0
    ensures s[..|bits| / 8] == Pack(bits)
    decreases |bits|
  {
    hide BitsOf, ValueOf;
    if bits != [] {
      var n := |bits| / 8 - 1;
      BeginsPack(s, bits[..|bits| - 8]);
      var last := bits[|bits| - 8..];
      forall b | 0 <= b < 8 ensures BitsOf(s[n])[b] == last[b] {
        SameBit(s, 8 * n + b, n, b);
      }
      assert BitsOf(s[n]) == last;
      ValueOfBits(s[n]);
      assert s[..n + 1] == s[..n] + [s[n]];
    }
  }

  lemma {:induction false} PackConcat(a: seq<bool>, s: seq<u8>)
    requires |a| % 8 == 0
    ensures Pack(a + BytesBits(s)) == Pack(a) + s
    decreases s
  {
    hide ScalarBits, ValueOf;
    var bits := a + BytesBits(s);
    if s == [] {
      assert bits == a;
    } else {
      var last := s[|s| - 1];
      assert bits[..|bits| - 8] == a + BytesBits(s[..|s| - 1]);
      assert bits[|bits| - 8..] == ScalarBits(last, 8);
      PackConcat(a, s[..|s| - 1]);
      ByteScalarBits(last);
      assert s == s[..|s| - 1] + [last];
    }
  }

  lemma ByteScalarBits(x: u8)
    ensures ScalarBits(x, 8) == BitsOf(x) && ValueOf(ScalarBits(x, 8)) == x
  {
    hide BitsOf, ValueOf, Binary;
    ByteBinary(x);
    ValueOfBits(x);
  }

  // ---------- Encoding ----------

  /** Appends a field to what is written so far. */
  method AppendScalar(buffer: array<u8>, bitOffset: nat, bitLength: u8, value: u64, ghost done: seq<bool>)
    returns (next: nat)
    requires 1 < bitLength <= 64 && bitOffset + bitLength <= 8 * buffer.Length
    requires |done| == bitOffset && Begins(buffer[..], done)
    modifies buffer
    ensures next == bitOffset + bitLength && Begins(buffer[..], done + ScalarBits(value, bitLength))
  {
    hide Begins, ScalarBits, Wrote;
    ghost var before := buffer[..];
    EncodeScalar(buffer, bitOffset, bitLength, value);
    BeginsMore(before, buffer[..], done, ScalarBits(value, bitLength));
    next := bitOffset + bitLength;
  }

  method EncodeHeader(m: Message, buffer: array<u8>) returns (bitOffset: nat)
    requires buffer.Length == MAX_SIZE
    modifies buffer
    ensures bitOffset == HEADER_BITS && Begins(buffer[..], HeaderBits(m))
  {
    hide Begins, ScalarBits;
    BeginsNothing(buffer[..]);
    ghost var done: seq<bool> := [];
    bitOffset := AppendScalar(buffer, 0, 8, m.protocol, done);
    done := done + ScalarBits(m.protocol, 8);
    bitOffset := AppendScalar(buffer, bitOffset, 7, m.targetNode, done);
    done := done + ScalarBits(m.targetNode, 7);
    bitOffset := AppendScalar(buffer, bitOffset, 5, m.serialId % 0x100, done);
    done := done + ScalarBits(m.serialId % 0x100, 5);
    bitOffset := AppendScalar(buffer, bitOffset, 4, m.options, done);
    done := done + ScalarBits(m.options, 4);
    bitOffset := AppendScalar(buffer, bitOffset, 24, m.baudrate, done);
    assert [] + ScalarBits(m.protocol, 8) == ScalarBits(m.protocol, 8);
  }

  lemma BeginsNothing(s: seq<u8>)
    ensures Begins(s, [])
  {
  }

  /** uavcan_tunnel_Targetted_encode */
  method Encode(m: Message, buffer: array<u8>) returns (size: nat)
    requires buffer.Length == MAX_SIZE && |m.buffer| <= BUFFER_MAX
    modifies buffer
    ensures size == 6 + |m.buffer| && buffer[..size] == EncodedPayload(m)
  {
    hide Begins, ScalarBits, HeaderBits;
    forall i | 0 <= i < buffer.Length {
      buffer[i] := 0;
    }
    var bitOffset := EncodeHeader(m, buffer);
    ghost var header := HeaderBits(m);
    assert header + [] == header;
    for i := 0 to |m.buffer|
      invariant bitOffset == HEADER_BITS + 8 * i
      invariant Begins(buffer[..], header + BytesBits(m.buffer[..i]))
    {
      bitOffset := AppendScalar(buffer, bitOffset, 8, m.buffer[i], header + BytesBits(m.buffer[..i]));
      assert m.buffer[..i + 1][..i] == m.buffer[..i];
      assert header + BytesBits(m.buffer[..i]) + ScalarBits(m.buffer[i], 8) == header + BytesBits(m.buffer[..i + 1]);
    }
    assert m.buffer[..|m.buffer|] == m.buffer;
    BeginsPack(buffer[..], header + BytesBits(m.buffer));
    PackConcat(header, m.buffer);
    size := (bitOffset + 7) / 8;
  }

  // ---------- Decoding ----------

  function FieldOf(payload: seq<u8>, bitOffset: nat, bitLength: nat, signed: bool): int {
    var r := ReadScalar(payload, bitOffset, bitLength, signed);
    if r.Decoded? then r.value else 0
  }

  lemma FieldBounds(payload: seq<u8>, bitOffset: nat, n: nat)
    requires 1 < n <= 24
    ensures 0 <= FieldOf(payload, bitOffset, n, false) < Pow2(n)
    ensures n <= 8 ==> -128 <= FieldOf(payload, bitOffset, n, true) < 128
  {
    hide PaddedBits;
    ScalarBound(PaddedBits(payload, bitOffset, n));
    Pow2Grows(n, if n <= 8 then 8 else n);
    Pow2Nibble();
  }

  lemma FieldsFit(payload: seq<u8>)
    ensures 0 <= FieldOf(payload, 0, 8, false) < 0x100 && 0 <= FieldOf(payload, 8, 7, false) < 0x80
    ensures 0 <= FieldOf(payload, 20, 4, false) < 16 && 0 <= FieldOf(payload, 24, 24, false) < 0x100_0000
  {
    hide FieldOf;
    FieldBounds(payload, 0, 8);
    FieldBounds(payload, 8, 7);
    FieldBounds(payload, 20, 4);
    FieldBounds(payload, 24, 24);
    SmallPowers();
  }

  /** What the decoder reads from a payload: it accepts exactly 6 to 126 bytes. */
  function DecodedPayload(payload: seq<u8>): Option<Message> {
    if 6 <= |payload| <= 6 + BUFFER_MAX then
      FieldsFit(payload);
      Some(Message(FieldOf(payload, 0, 8, false), FieldOf(payload, 8, 7, false), FieldOf(payload, 15, 5, true),
                   FieldOf(payload, 20, 4, false), FieldOf(payload, 24, 24, false), payload[6..]))
    else None
  }

  lemma SmallPowers()
    ensures Pow2(4) == 16 && Pow2(5) == 32 && Pow2(7) == 128 && Pow2(8) == 256 && Pow2(24) == 0x100_0000
  {
    Pow2Nibble();
    Pow2Add(4, 1);
    Pow2Add(4, 3);
    Pow2Add(8, 8);
    Pow2Add(16, 8);
  }

  lemma ByteField(payload: seq<u8>, j: nat)
    requires j < |payload|
    ensures ReadScalar(payload, 8 * j, 8, false) == Decoded(8, payload[j])
  {
    hide BitsOf, Bit, Number;
    var bits := PaddedBits(payload, 8 * j, 8);
    forall b | 0 <= b < 8 ensures bits[b] == BitsOf(payload[j])[b] {
      SameBit(payload, 8 * j + b, j, b);
    }
    assert bits == BitsOf(payload[j]);
    ByteNumber(bits);
    ValueOfBits(payload[j]);
  }

  /** One field, or zero when it lies beyond the payload. */
  method ReadField(c: Canard, t: RxTransfer, bitOffset: nat, bitLength: u8, signed: bool) returns (value: int)
    requires c.Valid() && t.middle == c.heldHead && WellScattered(t, |c.held|)
    ensures value == FieldOf(PayloadOf(t, c.View()), bitOffset, bitLength, signed)
  {
    hide ReadScalar, PayloadOf, WellScattered;
    var r := DecodeScalar(c, t, bitOffset, bitLength, signed);
    value := if r.Decoded? then r.value else 0;
  }

  /** The byte array at the end of the payload. */
  method ReadBuffer(c: Canard, t: RxTransfer, length: nat) returns (buffer: seq<u8>)
    requires c.Valid() && t.middle == c.heldHead && WellScattered(t, |c.held|)
    requires HEADER_BITS / 8 + length <= |PayloadOf(t, c.View())|
    ensures buffer == PayloadOf(t, c.View())[6..6 + length]
  {
    hide ReadScalar, PayloadOf, WellScattered;
    ghost var payload := PayloadOf(t, c.View());
    buffer := [];
    var bitOffset := HEADER_BITS;
    for i := 0 to length
      invariant bitOffset == HEADER_BITS + 8 * i
      invariant buffer == payload[6..6 + i]
    {
      var r := DecodeScalar(c, t, bitOffset, 8, false);
      ByteField(payload, 6 + i);
      buffer := buffer + [r.value];
      bitOffset := bitOffset + 8;
    }
  }

  /** uavcan_tunnel_Targetted_decode. The length of the byte array is inferred in 32 bits and kept in eight. */
  method Decode(c: Canard, t: RxTransfer) returns (m: Option<Message>)
    requires c.Valid() && t.middle == c.heldHead && WellScattered(t, |c.held|)
    ensures m == DecodedPayload(PayloadOf(t, c.View()))
  {
    hide FieldOf, PayloadOf, WellScattered;
    ghost var payload := PayloadOf(t, c.View());
    assert |payload| == t.payloadLen by { PartsStand(t, c.View()); }
    FieldsFit(payload);
    var protocol := ReadField(c, t, 0, 8, false);
    var targetNode := ReadField(c, t, 8, 7, false);
    var serialId := ReadField(c, t, 15, 5, true);
    var options := ReadField(c, t, 20, 4, false);
    var baudrate := ReadField(c, t, 24, 24, false);
    var length := (((t.payloadLen * 8 - HEADER_BITS) % 0x1_0000_0000) / 8) % 0x100;
    InferredLength(t.payloadLen);
    if length > BUFFER_MAX {
      return None;
    }
    var buffer := ReadBuffer(c, t, length);
    var byteLength := (HEADER_BITS + 8 * length + 7) / 8;
    if byteLength != t.payloadLen {
      return None;
    }
    assert payload[6..6 + length] == payload[6..];
    return Some(Message(protocol, targetNode, serialId, options, baudrate, buffer));
  }

  /** The truncated length never exceeds what is there unless it is refused; it is right for 6 to 126 bytes only. */
  lemma InferredLength(size: u16)
    ensures var length := (((size * 8 - HEADER_BITS) % 0x1_0000_0000) / 8) % 0x100;
      (length <= BUFFER_MAX ==> 6 + length <= size) &&
      (length <= BUFFER_MAX && 6 + length == size <==> 6 <= size <= 6 + BUFFER_MAX)
  {
    if size < 6 {
      assert size * 8 - HEADER_BITS + 0x1_0000_0000 == 8 * (size + 0x1FFF_FFFA);
      assert (size * 8 - HEADER_BITS) % 0x1_0000_0000 == 8 * (size + 0x1FFF_FFFA);
    } else {
      assert (size * 8 - HEADER_BITS) % 0x1_0000_0000 == 8 * (size - 6);
    }
  }

  // ---------- Round trip ----------

  /** What the wire keeps of a message. */
  function Truncated(m: Message): Message {
    Message(m.protocol, m.targetNode % 0x80, Signed(m.serialId % 32, 5), m.options % 16, m.baudrate % 0x100_0000, m.buffer)
  }

  lemma {:induction false} PackBegins(bits: seq<bool>)
    requires |bits| % 8 == 0
    ensures Begins(Pack(bits), bits)
    decreases |bits|
  {
    hide BitsOf, ValueOf;
    if bits != [] {
      var front, last := bits[..|bits| - 8], bits[|bits| - 8..];
      PackBegins(front);
      BitsOfValue(last);
      var s := Pack(bits);
      forall i | 0 <= i < |bits| ensures Bit(s, i) == bits[i] {
        if i < |front| {
          assert Bit(s, i) == Bit(Pack(front), i);
        } else {
          SameBit(s, i, |s| - 1, i - |front|);
        }
      }
    }
  }

  /** A field is read from the header bits it was written to. */
  lemma HeaderField(header: seq<bool>, buffer: seq<u8>, at: nat, n: nat, v: nat)
    requires |header| == HEADER_BITS && at + n <= HEADER_BITS && 1 < n <= 24 && header[at..at + n] == ScalarBits(v, n)
    ensures FieldOf(Pack(header) + buffer, at, n, false) == v % Pow2(n)
    ensures FieldOf(Pack(header) + buffer, at, n, true) == Signed(v % Pow2(n), n)
  {
    hide ScalarBits, ScalarValue, Pack, Signed;
    var payload := Pack(header) + buffer;
    PackBegins(header);
    var bits := PaddedBits(payload, at, n);
    forall i | 0 <= i < n ensures bits[i] == header[at..at + n][i] {
      assert Bit(payload, at + i) == Bit(Pack(header), at + i);
    }
    assert bits == ScalarBits(v, n);
    ScalarRoundTrip(v, n);
  }

  /** Decoding undoes encoding: the same message, each field truncated to its bits on the wire. */
  lemma RoundTrip(m: Message)
    requires |m.buffer| <= BUFFER_MAX
    ensures DecodedPayload(EncodedPayload(m)) == Some(Truncated(m))
    ensures InRange(m) ==> Truncated(m) == m
  {
    hide ScalarBits, FieldOf, Pack, Signed, Pow2, HeaderBits;
    var h := HeaderBits(m);
    HeaderSlices(m);
    HeaderField(h, m.buffer, 0, 8, m.protocol);
    HeaderField(h, m.buffer, 8, 7, m.targetNode);
    HeaderField(h, m.buffer, 15, 5, m.serialId % 0x100);
    HeaderField(h, m.buffer, 20, 4, m.options);
    HeaderField(h, m.buffer, 24, 24, m.baudrate);
    SmallPowers();
    LowFive(m.serialId);
    assert (Pack(h) + m.buffer)[6..] == m.buffer;
    if InRange(m) {
      SerialInRange(m.serialId);
    }
  }

  lemma LowFive(v: int)
    ensures (v % 0x100) % 32 == v % 32
  {
  }

  lemma SerialInRange(v: int)
    requires -16 <= v < 16
    ensures Signed(v % 32, 5) == v
  {
    SmallPowers();
    Pow2Nibble();
    SignedRoundTrip(v, 5);
    ScalarRoundTrip(v % 32, 5);
  }

  lemma HeaderSlices(m: Message)
    ensures var h := HeaderBits(m);
      h[0..8] == ScalarBits(m.protocol, 8) && h[8..15] == ScalarBits(m.targetNode, 7) &&
      h[15..20] == ScalarBits(m.serialId % 0x100, 5) && h[20..24] == ScalarBits(m.options, 4) &&
      h[24..48] == ScalarBits(m.baudrate, 24)
  {
    hide ScalarBits;
  }

  // ---------- Bytes on the bus ----------

  lemma {:induction false} BinaryFront(v: nat, n: nat, k: nat)
    requires k <= n
    ensures Binary(v, n)[..k] == Binary(v / Pow2(n - k), k)
    decreases n - k
  {
    if k < n {
      BinaryFront(v / 2, n - 1, k);
      HalvedAgain(v, Pow2(n - 1 - k));
      assert Binary(v, n)[..k] == Binary(v / 2, n - 1)[..k];
    }
  }

  lemma TwoParts(v: nat, a: nat, w: nat, b: nat)
    requires a + b == 8
    ensures ValueOf(Binary(v, a) + Binary(w, b)) == (v % Pow2(a)) * Pow2(b) + w % Pow2(b)
  {
    hide Number, Binary, Pow2, ValueOf;
    ByteNumber(Binary(v, a) + Binary(w, b));
    NumberConcat(Binary(v, a), Binary(w, b));
    NumberOfBinary(v, a);
    NumberOfBinary(w, b);
  }

  lemma {:induction false} PackAt(bits: seq<bool>, i: nat)
    requires |bits| % 8 == 0 && 8 * i + 8 <= |bits|
    ensures Pack(bits)[i] == ValueOf(bits[8 * i..8 * i + 8])
    decreases |bits|
  {
    hide ValueOf;
    if 8 * i + 8 < |bits| {
      PackAt(bits[..|bits| - 8], i);
      assert bits[..|bits| - 8][8 * i..8 * i + 8] == bits[8 * i..8 * i + 8];
    } else {
      assert bits[8 * i..8 * i + 8] == bits[|bits| - 8..];
    }
  }

  /** The six bytes before the byte array: the fields packed from the most significant bit of each byte down, the
      baudrate least significant byte first. */
  lemma WireBytes(m: Message)
    ensures
      var s := EncodedPayload(m);
      |s| == 6 + |m.buffer| && s[6..] == m.buffer && s[0] == m.protocol &&
      s[1] == (m.targetNode % 0x80) * 2 + (m.serialId % 32) / 16 &&
      s[2] == (m.serialId % 16) * 16 + m.options % 16 &&
      s[3] == m.baudrate % 0x100 && s[4] == (m.baudrate / 0x100) % 0x100 && s[5] == (m.baudrate / 0x1_0000) % 0x100
  {
    hide ValueOf, Pack, HeaderBits, Binary;
    var h, serial := HeaderBits(m), (m.serialId % 0x100) as nat;
    HeaderSlices(m);
    SmallPowers();
    forall i | 0 <= i < 6 ensures EncodedPayload(m)[i] == ValueOf(h[8 * i..8 * i + 8]) {
      PackAt(h, i);
    }
    ByteScalarBits(m.protocol);
    BinaryFront(serial, 5, 1);
    BinarySuffix(serial, 5, 4);
    assert h[8..16] == h[8..15] + h[15..20][..1];
    assert h[16..24] == h[15..20][1..] + h[20..24];
    TwoParts(m.targetNode, 7, serial / Pow2(4), 1);
    TwoParts(serial, 4, m.options, 4);
    SerialParts(m.serialId);
    Baud(m.baudrate);
    assert h[24..32] == h[24..48][..8] && h[32..40] == h[24..48][8..16] && h[40..48] == h[24..48][16..];
  }

  lemma SerialParts(v: int)
    ensures ((v % 0x100) / 16) % 2 == (v % 32) / 16 && (v % 0x100) % 16 == v % 16
  {
    var r, q := v % 0x100, v / 0x100;
    var low := r % 32;
    UniqueRemainder(v, 32, 8 * q + r / 32, low);
    UniqueRemainder(v, 16, 16 * q + r / 16, r % 16);
    assert r == 32 * (r / 32) + low;
    UniqueRemainder(r, 16, 2 * (r / 32) + low / 16, low % 16);
    UniqueRemainder(r / 16, 2, r / 32, low / 16);
  }

  lemma Baud(v: nat)
    ensures
      var bits := ScalarBits(v, 24);
      ValueOf(bits[..8]) == v % 0x100 && ValueOf(bits[8..16]) == (v / 0x100) % 0x100 &&
      ValueOf(bits[16..]) == (v / 0x1_0000) % 0x100
  {
    hide ValueOf, Binary;
    var bits := ScalarBits(v, 24);
    var rest := ScalarBits(v / 0x100, 16);
    assert bits == Binary(v % 0x100, 8) + rest;
    assert ScalarBits(v / 0x100 / 0x100, 8) == Binary(v / 0x100 / 0x100, 8);
    assert rest == Binary((v / 0x100) % 0x100, 8) + Binary(v / 0x100 / 0x100, 8);
    assert bits[8..16] == rest[..8] && bits[16..] == rest[8..];
    ByteValue(v % 0x100);
    ByteValue((v / 0x100) % 0x100);
    ByteValue(v / 0x100 / 0x100);
  }

  lemma ByteValue(v: nat)
    ensures ValueOf(Binary(v, 8)) == v % 0x100
  {
    hide ValueOf, Number, Binary;
    ByteNumber(Binary(v, 8));
    NumberOfBinary(v, 8);
    Pow2Nibble();
  }
}
