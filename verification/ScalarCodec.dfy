/** Reading scalars from received transfers and writing them into payload buffers. */
module ScalarCodec {
  import opened Bits
  import opened BitArrays
  import opened Scalars
  import opened CanardFrame
  import opened CanardLists
  import opened CanardPool
  import opened CanardModel
  import opened CanardStorage
  import opened CanardPoolFacts
  import opened CanardInstance

  // ---------- The scattered payload ----------

  /** A delivered payload, read from the blocks lent to the application. */
  ghost function PayloadOf(t: RxTransfer, p: Pool): seq<u8> { Flat(t, Gather(p.m, p.held)) }

  /** Bits that can be read from a payload of `size` bytes. */
  function Readable(size: nat, bitOffset: nat, bitLength: nat): nat {
    if bitOffset >= 8 * size then 0
    else if bitOffset + bitLength > 8 * size then 8 * size - bitOffset
    else bitLength
  }

  lemma {:induction false} GatherAt(m: seq<Block>, chain: seq<nat>, j: nat, y: nat)
    requires forall b :: b in chain ==> |DataAt(m, b)| == BLOCK_SIZE
    requires j < |chain| && y < BLOCK_SIZE
    ensures |Gather(m, chain)| == BLOCK_SIZE * |chain|
    ensures Gather(m, chain)[BLOCK_SIZE * j + y] == DataAt(m, chain[j])[y]
    decreases chain
  {
    GatherLength(m, chain);
    if j > 0 {
      GatherAt(m, chain[1..], j - 1, y);
      assert chain[0] in chain;
    }
  }

  /** The j-th lent block. */
  lemma LentChunk(p: Pool, j: nat)
    requires Wf(p) && j <= |p.held|
    ensures forall b :: b in p.held ==> |DataAt(p.m, b)| == BLOCK_SIZE
    ensures |Gather(p.m, p.held)| == BLOCK_SIZE * |p.held|
    ensures j < |p.held| ==> p.held[j] < |p.m| && p.m[p.held[j]].Chunk? && |p.m[p.held[j]].data| == BLOCK_SIZE
    ensures j < |p.held| ==> p.m[p.held[j]].next == First(p.held[j + 1..], NULL)
  {
    hide Chained;
    LinkedInRange(p.m, p.heldHead, p.held);
    forall b | b in p.held ensures |DataAt(p.m, b)| == BLOCK_SIZE {
      assert OwnedAt(p, b);
    }
    GatherLength(p.m, p.held);
    if j < |p.held| {
      LinkedNext(p.m, p.heldHead, p.held, j);
      assert p.held[j] in p.held;
      assert OwnedAt(p, p.held[j]);
    }
  }

  /** `piece` stands in the payload from byte `start` on, as far as the payload goes. */
  ghost predicate StandsAt(payload: seq<u8>, start: nat, piece: seq<u8>) {
    forall y :: 0 <= y < |piece| && start + y < |payload| ==> payload[start + y] == piece[y]
  }

  lemma PieceBit(payload: seq<u8>, start: nat, piece: seq<u8>, x: nat)
    requires StandsAt(payload, start, piece) && x < 8 * |piece| && 8 * start + x < 8 * |payload|
    ensures Bit(payload, 8 * start + x) == Bit(piece, x)
  {
    assert payload[start + x / 8] == piece[x / 8];
  }

  lemma PartsStand(t: RxTransfer, p: Pool)
    requires Wf(p) && t.middle == p.heldHead && WellScattered(t, |p.held|)
    ensures |PayloadOf(t, p)| == t.payloadLen && StandsAt(PayloadOf(t, p), 0, t.head)
    ensures t.tail != [] || t.middle != NULL ==> StandsAt(PayloadOf(t, p), HEAD_SIZE + BLOCK_SIZE * |p.held|, t.tail)
    ensures t.middle == NULL <==> p.held == []
  {
    hide Wf, Gather;
    LentChunk(p, 0);
    LendHead(p);
    var whole := t.head + Gather(p.m, p.held) + t.tail;
    assert t.payloadLen <= |whole| && PayloadOf(t, p) == whole[..t.payloadLen];
  }

  lemma ChunkStands(t: RxTransfer, p: Pool, j: nat)
    requires Wf(p) && WellScattered(t, |p.held|) && |t.head| == HEAD_SIZE && j < |p.held| && t.middle != NULL
    ensures StandsAt(PayloadOf(t, p), HEAD_SIZE + BLOCK_SIZE * j, DataAt(p.m, p.held[j]))
  {
    hide Wf, Gather;
    LentChunk(p, j);
    var payload, chunk, start := PayloadOf(t, p), DataAt(p.m, p.held[j]), HEAD_SIZE + BLOCK_SIZE * j;
    var whole := t.head + Gather(p.m, p.held) + t.tail;
    assert payload == whole[..t.payloadLen];
    assert p.held[j] in p.held;
    forall y | 0 <= y < |chunk| && start + y < |payload| ensures payload[start + y] == chunk[y] {
      GatherAt(p.m, p.held, j, y);
      assert whole[start + y] == Gather(p.m, p.held)[BLOCK_SIZE * j + y];
    }
  }

  /** Copying a piece of the payload behind what was copied already. */
  lemma CopiedThen(payload: seq<u8>, bitOffset: nat, done: nat, piece: seq<u8>, start: nat, from: nat, amount: nat,
                   o0: seq<u8>, o1: seq<u8>, o2: seq<u8>)
    requires Copied(payload, bitOffset, done, o0, o1, 0) && Copied(piece, from, amount, o1, o2, done)
    requires StandsAt(payload, start, piece) && 8 * start + from == bitOffset + done
    requires bitOffset + done + amount <= 8 * |payload|
    ensures Copied(payload, bitOffset, done + amount, o0, o2, 0)
  {
    hide Bit, StandsAt;
    forall i | 0 <= i < 8 * |o0|
      ensures Bit(o2, i) == if i < done + amount then Bit(payload, bitOffset + i) else Bit(o0, i)
    {
      if done <= i < done + amount {
        PieceBit(payload, start, piece, from + i - done);
      }
      assert Bit(o1, i) == if 0 <= i < 0 + done then Bit(payload, bitOffset + i - 0) else Bit(o0, i);
    }
  }

  // ---------- Gathering bits ----------

  function Min(a: nat, b: nat): nat { if a < b then a else b }

  /** The head's part of descatterTransferPayload: how many bits it gives. */
  method ReadHead(ghost payload: seq<u8>, head: seq<u8>, bitOffset: nat, bitLength: nat, output: array<u8>)
    returns (amount: nat)
    requires StandsAt(payload, 0, head) && |head| == HEAD_SIZE && bitOffset + bitLength <= 8 * |payload|
    requires 0 < bitLength <= 8 * output.Length
    modifies output
    ensures amount == (if bitOffset < 8 * HEAD_SIZE then Min(bitLength, 8 * HEAD_SIZE - bitOffset) else 0)
    ensures Copied(payload, bitOffset, amount, old(output[..]), output[..], 0)
  {
    hide Copied, StandsAt;
    amount := 0;
    CopiedNothing(payload, bitOffset, output[..], 0);
    if bitOffset < 8 * HEAD_SIZE {
      amount := Min(bitLength, 8 * HEAD_SIZE - bitOffset);
      ghost var before := output[..];
      CopyBitArray(head, bitOffset, amount, output, 0);
      CopiedThen(payload, bitOffset, 0, head, 0, bitOffset, amount, before, before, output[..]);
    }
  }

  /** The middle's part: walks the block chain. The first done0 of `total` bits are copied already. */
  method ReadMiddle(c: Canard, t: RxTransfer, bitOffset: nat, total: nat, done0: nat, output: array<u8>, ghost o0: seq<u8>)
    returns (done: nat, blockOffset: nat)
    requires c.Valid() && t.middle == c.heldHead && WellScattered(t, |c.held|) && (t.middle != NULL || t.tail != [])
    requires bitOffset + total <= 8 * t.payloadLen && done0 <= total <= 8 * output.Length
    requires done0 == total || bitOffset + done0 >= 8 * HEAD_SIZE
    requires Copied(PayloadOf(t, c.View()), bitOffset, done0, o0, output[..], 0)
    modifies output
    ensures done0 <= done <= total && c.View() == old(c.View())
    ensures done == total || blockOffset == 8 * (HEAD_SIZE + BLOCK_SIZE * |c.held|) <= bitOffset + done
    ensures Copied(PayloadOf(t, c.View()), bitOffset, done, o0, output[..], 0)
  {
    hide Copied, StandsAt, Wf, PayloadOf;
    ghost var p, j := c.View(), 0;
    PartsStand(t, p);
    LendHead(p);
    assert p.held[0..] == p.held;
    var block, remainingBits := t.middle, 8 * t.payloadLen - 8 * HEAD_SIZE;
    done, blockOffset := done0, 8 * HEAD_SIZE;
    while block != NULL && done < total
      invariant j <= |p.held| && block == First(p.held[j..], NULL)
      invariant blockOffset == Min(8 * (HEAD_SIZE + BLOCK_SIZE * j), 8 * t.payloadLen)
      invariant remainingBits == 8 * t.payloadLen - blockOffset
      invariant done0 <= done <= total && (done == total || bitOffset + done >= blockOffset)
      invariant c.View() == p && Copied(PayloadOf(t, p), bitOffset, done, o0, output[..], 0)
      decreases |p.held| - j
    {
      LentChunk(p, j);
      ChunkStands(t, p, j);
      var end := blockOffset + Min(8 * BLOCK_SIZE, remainingBits);
      if end > bitOffset + done {
        var amount := Min(total - done, end - (bitOffset + done));
        ghost var o1 := output[..];
        CopyBitArray(c.arena[block].data, bitOffset + done - blockOffset, amount, output, done);
        CopiedThen(PayloadOf(t, p), bitOffset, done, c.arena[block].data, HEAD_SIZE + BLOCK_SIZE * j,
                   bitOffset + done - blockOffset, amount, o0, o1, output[..]);
        done := done + amount;
      }
      remainingBits := remainingBits - (end - blockOffset);
      blockOffset := end;
      block := c.arena[block].next;
      j := j + 1;
    }
  }

  /** descatterTransferPayload: copies the bits of the payload that exist, wherever they are. */
  method DescatterTransferPayload(c: Canard, t: RxTransfer, bitOffset: nat, bitLength: nat, output: array<u8>)
    returns (result: nat)
    requires c.Valid() && t.middle == c.heldHead && WellScattered(t, |c.held|)
    requires 0 < bitLength <= 8 * output.Length
    modifies output
    ensures c.View() == old(c.View()) && c.Valid() && c.nodeId == old(c.nodeId)
    ensures |PayloadOf(t, c.View())| == t.payloadLen && result == Readable(t.payloadLen, bitOffset, bitLength)
    ensures result == 0 ==> output[..] == old(output[..])
    ensures result > 0 ==> Copied(PayloadOf(t, c.View()), bitOffset, result, old(output[..]), output[..], 0)
  {
    hide Copied, StandsAt, Wf, PayloadOf;
    ghost var p, o0 := c.View(), output[..];
    PartsStand(t, p);
    if bitOffset >= t.payloadLen * 8 {
      return 0;
    }
    result := Readable(t.payloadLen, bitOffset, bitLength);
    if t.middle != NULL || t.tail != [] {
      var done := ReadHead(PayloadOf(t, p), t.head, bitOffset, result, output);
      var blockOffset;
      done, blockOffset := ReadMiddle(c, t, bitOffset, result, done, output, o0);
      if t.tail != [] && done < result {
        var from := bitOffset + done - blockOffset;
        ghost var o1 := output[..];
        CopyBitArray(t.tail, from, result - done, output, done);
        CopiedThen(PayloadOf(t, p), bitOffset, done, t.tail, HEAD_SIZE + BLOCK_SIZE * |p.held|, from, result - done,
                   o0, o1, output[..]);
      }
    } else {
      CopiedNothing(PayloadOf(t, p), bitOffset, o0, 0);
      CopyBitArray(t.head, bitOffset, result, output, 0);
      CopiedThen(PayloadOf(t, p), bitOffset, 0, t.head, 0, bitOffset, result, o0, o0, output[..]);
    }
  }

  // ---------- Decoding ----------

  datatype Decoded = InvalidArguments | OutOfRange | Decoded(bits: nat, value: int)

  /** n bits of a payload, zero beyond its end. */
  function PaddedBits(payload: seq<u8>, bitOffset: nat, n: nat): (bits: seq<bool>)
    ensures |bits| == n
  {
    seq(n, i requires 0 <= i < n => bitOffset + i < 8 * |payload| && Bit(payload, bitOffset + i))
  }

  /** Reading a scalar from the flat payload. */
  function ReadScalar(payload: seq<u8>, bitOffset: nat, bitLength: nat, signed: bool): Decoded {
    if bitLength < 1 || bitLength > 64 || (bitLength == 1 && signed) then InvalidArguments
    else if bitOffset >= 8 * |payload| then OutOfRange
    else
      var v := ScalarValue(PaddedBits(payload, bitOffset, bitLength));
      Decoded(Readable(|payload|, bitOffset, bitLength), if signed then Signed(v, bitLength) else v)
  }

  /** Bytes of the smallest standard integer that holds n bits. */
  function StdBytes(n: nat): nat { if n <= 8 then 1 else if n <= 16 then 2 else if n <= 32 then 4 else 8 }

  function ShiftByteRight(x: u8, n: nat): u8
    requires n <= 8
  {
    ValueOf(ShiftRight(BitsOf(x), n))
  }

  /** The temporary storage holds the bits, most significant first, and zeros behind them. */
  ghost predicate Stored(storage: seq<u8>, bits: seq<bool>) {
    |storage| == 8 && |bits| <= 64 && forall i :: 0 <= i < 64 ==> Bit(storage, i) == (i < |bits| && bits[i])
  }

  /** Aligning the last partial byte makes every byte the number of its group of bits. */
  lemma StoredGroup(storage: seq<u8>, bits: seq<bool>, k: nat)
    requires Stored(storage, bits) && k < 8
    ensures 8 * k + 8 <= |bits| || 8 * k >= |bits| ==> storage[k] == Number(Group(bits, k))
    ensures 8 * k < |bits| < 8 * k + 8 ==> ShiftByteRight(storage[k], 8 * k + 8 - |bits|) == Number(Group(bits, k))
  {
    hide BitsOf, ValueOf, Number;
    var byte, group := BitsOf(storage[k]), Group(bits, k);
    var pad := seq(8 - |group|, _ => false);
    forall i | 0 <= i < 8 ensures byte[i] == (group + pad)[i] {
      SameBit(storage, 8 * k + i, k, i);
    }
    assert byte == group + pad;
    ValueOfBits(storage[k]);
    if |group| == 8 {
      assert byte == group;
      ByteNumber(group);
    } else if group == [] {
      assert byte == pad + [];
      NumberZeros(8, []);
      ByteNumber(byte);
    } else {
      assert ShiftRight(byte, 8 - |group|) == pad + group;
      NumberZeros(8 - |group|, group);
      ByteNumber(pad + group);
    }
  }

  /** Two's complement extension of an n-bit number to `wide` bits and reading it as signed. */
  function ExtendSign(v: nat, n: nat, wide: nat): int
    requires 0 < n <= wide
  {
    var extended := if n < wide && (v / Pow2(n - 1)) % 2 == 1 then v + (Pow2(wide) - Pow2(n)) else v;
    if extended >= Pow2(wide - 1) then extended - Pow2(wide) else extended
  }

  lemma ExtendSignIsSigned(v: nat, n: nat, wide: nat)
    requires 0 < n <= wide && v < Pow2(n)
    ensures ExtendSign(v, n, wide) == Signed(v, n)
  {
    var half := Pow2(n - 1);
    assert Pow2(n) == 2 * half;
    if v >= half {
      UniqueRemainder(v, half, 1, v - half);
    } else {
      UniqueRemainder(v, half, 0, v);
    }
    if n < wide {
      Pow2Grows(n, wide - 1);
    }
  }

  lemma {:induction false} Pow2Grows(a: nat, b: nat)
    requires a <= b
    ensures Pow2(a) <= Pow2(b)
    decreases b - a
  {
    if a < b {
      Pow2Grows(a, b - 1);
    }
  }

  method ClearedStorage() returns (storage: array<u8>)
    ensures fresh(storage) && storage.Length == 8 && Stored(storage[..], [])
  {
    storage := new u8[8](i => 0);
    assert forall i :: 0 <= i < 8 ==> storage[..][i] == 0;
    assert forall i :: 0 <= i < 8 ==> !BitsOf(0)[i];
  }

  /** Aligns the last byte and reads the storage as a little-endian integer. */
  method StorageValue(storage: array<u8>, n: nat, ghost bits: seq<bool>) returns (v: nat)
    requires Stored(storage[..], bits) && |bits| == n && 1 <= n <= 64
    modifies storage
    ensures v == ScalarValue(bits)
  {
    hide Stored, Group, Number, ShiftByteRight;
    ghost var before := storage[..];
    assert storage.Length == 8 by { StoredSize(before, bits); }
    forall k | 0 <= k < 8
      ensures 8 * k + 8 <= n || 8 * k >= n ==> before[k] == Number(Group(bits, k))
      ensures 8 * k < n < 8 * k + 8 ==> ShiftByteRight(before[k], 8 * k + 8 - n) == Number(Group(bits, k))
    {
      StoredGroup(before, bits, k);
    }
    if n % 8 != 0 {
      storage[n / 8] := ShiftByteRight(storage[n / 8], 8 - n % 8);
      assert storage[..] == before[n / 8 := ShiftByteRight(before[n / 8], 8 - n % 8)];
    }
    var bytes := storage[..StdBytes(n)];
    GroupsValue(bytes, bits);
    v := ReadLittleEndian(bytes);
  }

  lemma StoredSize(storage: seq<u8>, bits: seq<bool>)
    requires Stored(storage, bits)
    ensures |storage| == 8
  {
  }

  /** What a little-endian processor reads from these bytes. */
  method ReadLittleEndian(bytes: seq<u8>) returns (v: nat)
    ensures v == LittleEndian(bytes)
  {
    v := 0;
    var i := |bytes|;
    assert bytes[|bytes|..] == [];
    while i > 0
      invariant 0 <= i <= |bytes| && v == LittleEndian(bytes[i..])
    {
      i := i - 1;
      assert bytes[i..][1..] == bytes[i + 1..];
      v := bytes[i] + 256 * v;
    }
    assert bytes[0..] == bytes;
  }

  /** What was gathered, with zeros behind it. */
  lemma GatheredStored(payload: seq<u8>, bitOffset: nat, n: nat, before: seq<u8>, after: seq<u8>)
    requires Stored(before, []) && n <= 64 && bitOffset < 8 * |payload|
    requires Copied(payload, bitOffset, Readable(|payload|, bitOffset, n), before, after, 0)
    ensures Stored(after, PaddedBits(payload, bitOffset, n))
  {
    hide Bit;
  }

  /** canardDecodeScalar refines reading the flat payload. */
  method DecodeScalar(c: Canard, t: RxTransfer, bitOffset: nat, bitLength: u8, signed: bool) returns (r: Decoded)
    requires c.Valid() && t.middle == c.heldHead && WellScattered(t, |c.held|)
    ensures r == ReadScalar(PayloadOf(t, c.View()), bitOffset, bitLength, signed)
  {
    hide Wf, PayloadOf, Copied, Stored, PaddedBits, ExtendSign, Signed;
    if bitLength < 1 || bitLength > 64 || (bitLength == 1 && signed) {
      PartsStand(t, c.View());
      return InvalidArguments;
    }
    var storage := ClearedStorage();
    ghost var before := storage[..];
    StoredSize(before, []);
    var result := DescatterTransferPayload(c, t, bitOffset, bitLength, storage);
    if result == 0 {
      return OutOfRange;
    }
    ghost var bits := PaddedBits(PayloadOf(t, c.View()), bitOffset, bitLength);
    GatheredStored(PayloadOf(t, c.View()), bitOffset, bitLength, before, storage[..]);
    var v := StorageValue(storage, bitLength, bits);
    ScalarBound(bits);
    if signed {
      ExtendSignIsSigned(v, bitLength, 8 * StdBytes(bitLength));
      return Decoded(result, ExtendSign(v, bitLength, 8 * StdBytes(bitLength)));
    }
    return Decoded(result, v);
  }

  // ---------- Encoding ----------

  function ShiftByteLeft(x: u8, n: nat): u8
    requires n <= 8
  {
    ValueOf(ShiftLeft(BitsOf(x), n))
  }

  /** A single bit is written as a truth value. */
  function Written(v: u64, n: nat): nat { if n == 1 then (if v != 0 then 1 else 0) else v }

  /** The storage that canardEncodeScalar copies from: the value's bytes, the last one aligned upwards. */
  function Storage(v: nat, n: nat): (s: seq<u8>)
    requires 1 <= n <= 64
    ensures |s| == 8
  {
    var bytes := BytesOf(v % Pow2(8 * StdBytes(n)), 8);
    if n % 8 == 0 then bytes else bytes[n / 8 := ShiftByteLeft(bytes[n / 8], 8 - n % 8)]
  }

  lemma StorageBits(v: nat, n: nat, i: nat)
    requires 1 <= n <= 64 && i < n
    ensures Bit(Storage(v, n), i) == ScalarBits(v, n)[i]
  {
    hide ScalarBits, BytesOf, ShiftByteLeft, Bit, Pow2, Group, Binary, BitsOf;
    var v' := v % Pow2(8 * StdBytes(n));
    var k, b, x := i / 8, i % 8, BytesOf(v', 8)[i / 8];
    ScalarLow(v, n, 8 * StdBytes(n));
    ScalarGroup(v', n, k, 8);
    SameBit(Storage(v, n), i, k, b);
    GroupAt(ScalarBits(v, n), i);
    ByteBinary(x);
    if 8 * k + 8 > n {
      AlignedBits(x, n - 8 * k, b);
    }
  }

  lemma AlignedBits(x: u8, r: nat, b: nat)
    requires b < r < 8
    ensures BitsOf(ShiftByteLeft(x, 8 - r))[b] == Binary(x, r)[b]
  {
    hide BitsOf, ValueOf, Binary;
    BitsOfValue(ShiftLeft(BitsOf(x), 8 - r));
    ByteBinary(x);
    BinarySuffix(x, 8, r);
    assert Binary(x, r)[b] == Binary(x, 8)[8 - r + b];
  }

  /** canardEncodeScalar: writes the value's lowest bits, and no other bit of the destination. */
  method EncodeScalar(destination: array<u8>, bitOffset: nat, bitLength: u8, value: u64)
    requires 1 <= bitLength <= 64 && bitOffset + bitLength <= 8 * destination.Length
    modifies destination
    ensures Wrote(old(destination[..]), destination[..], bitOffset, ScalarBits(Written(value, bitLength), bitLength))
  {
    hide Storage, Bit, ScalarBits, Written;
    var v := Written(value, bitLength);
    var storage := Storage(v, bitLength);
    ghost var before := destination[..];
    CopyBitArray(storage, 0, bitLength, destination, bitOffset);
    ghost var bits := ScalarBits(v, bitLength);
    forall i | 0 <= i < |bits| ensures Bit(storage, i) == bits[i] {
      StorageBits(v, bitLength, i);
    }
    CopiedWrote(storage, before, destination[..], bitOffset, bits);
  }

  /** These bits stand from `at` on, and all other bits are as before. */
  ghost predicate Wrote(before: seq<u8>, after: seq<u8>, at: nat, bits: seq<bool>) {
    && |after| == |before| && at + |bits| <= 8 * |before|
    && forall i :: 0 <= i < 8 * |before| ==>
         Bit(after, i) == if at <= i < at + |bits| then bits[i - at] else Bit(before, i)
  }

  lemma CopiedWrote(storage: seq<u8>, before: seq<u8>, after: seq<u8>, at: nat, bits: seq<bool>)
    requires Copied(storage, 0, |bits|, before, after, at) && |bits| <= 8 * |storage|
    requires forall i :: 0 <= i < |bits| ==> Bit(storage, i) == bits[i]
    ensures Wrote(before, after, at, bits)
  {
    hide Bit;
  }

  /** What is written at a place is read from that place, truncated to the bit length; a single bit is read as the
      truth value it was written for, and is refused as a signed number. */
  lemma WriteThenRead(before: seq<u8>, after: seq<u8>, at: nat, v: u64, n: nat)
    requires 1 <= n <= 64 && Wrote(before, after, at, ScalarBits(Written(v, n), n))
    ensures ReadScalar(after, at, n, false) == Decoded(n, Written(v, n) % Pow2(n))
    ensures ReadScalar(after, at, n, true) == if n == 1 then InvalidArguments else Decoded(n, Signed(v % Pow2(n), n))
    ensures n == 1 ==> Written(v, n) % Pow2(n) == if v != 0 then 1 else 0
  {
    hide Bit, ScalarBits, ScalarValue;
    assert PaddedBits(after, at, n) == ScalarBits(Written(v, n), n);
    ScalarRoundTrip(Written(v, n), n);
    assert Pow2(1) == 2;
  }

  /** A scalar of whole bytes at a byte boundary is those bytes, least significant first. */
  lemma {:induction false} AlignedScalar(payload: seq<u8>, k: nat, n: nat)
    requires 1 <= n <= 8 && k + n <= |payload|
    ensures ReadScalar(payload, 8 * k, 8 * n, false) == Decoded(8 * n, LittleEndian(payload[k..k + n]))
  {
    hide Number, BitsOf, ValueOf, LittleEndian, ScalarValue;
    var bits, bytes := PaddedBits(payload, 8 * k, 8 * n), payload[k..k + n];
    forall i | 0 <= i < n ensures bytes[i] == Number(Group(bits, i)) {
      forall y | 0 <= y < 8 ensures Group(bits, i)[y] == BitsOf(bytes[i])[y] {
        SameBit(payload, 8 * (k + i) + y, k + i, y);
      }
      assert Group(bits, i) == BitsOf(bytes[i]);
      ByteNumber(BitsOf(bytes[i]));
      ValueOfBits(bytes[i]);
    }
    GroupsValue(bytes, bits);
  }

  /** A single bit is found in its byte, the most significant bit first. */
  lemma BitScalar(payload: seq<u8>, bitOffset: nat)
    requires bitOffset < 8 * |payload|
    ensures ReadScalar(payload, bitOffset, 1, false) ==
            Decoded(1, (payload[bitOffset / 8] / Pow2(7 - bitOffset % 8)) % 2)
  {
    hide BitsOf;
    var bits := PaddedBits(payload, bitOffset, 1);
    assert bits[..0] == [] && Number([]) == 0;
    assert Number(bits) == if bits[0] then 1 else 0;
    BitOfByte(payload[bitOffset / 8], bitOffset % 8);
    var q := payload[bitOffset / 8] / Pow2(7 - bitOffset % 8);
    assert bits[0] == Bit(payload, bitOffset) == (q % 2 == 1);
    assert ScalarValue(bits) == q % 2;
  }

  lemma BitOfByte(x: u8, i: nat)
    requires i < 8
    ensures BitsOf(x)[i] == ((x / Pow2(7 - i)) % 2 == 1)
  {
    ByteBinary(x);
    BinaryAt(x, 8, i);
  }

  lemma {:induction false} BinaryAt(v: nat, n: nat, i: nat)
    requires i < n
    ensures Binary(v, n)[i] == ((v / Pow2(n - 1 - i)) % 2 == 1)
  {
    if i < n - 1 {
      BinaryAt(v / 2, n - 1, i);
      HalvedAgain(v, Pow2(n - 2 - i));
    }
  }

  lemma HalvedAgain(v: nat, p: nat)
    requires p > 0
    ensures (v / 2) / p == v / (2 * p)
  {
    var h := v / 2;
    var r := 2 * (h % p) + v % 2;
    assert h == p * (h / p) + h % p;
    assert v == (2 * p) * (h / p) + r;
    UniqueRemainder(v, 2 * p, h / p, r);
  }
}
