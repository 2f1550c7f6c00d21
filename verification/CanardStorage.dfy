/** Arithmetic and bytes of storing a payload in a session block and its chain of chunks. */
module CanardStorage {
  import opened Bits
  import opened CanardFrame
  import opened CanardLists
  import opened CanardTransport
  import opened CanardModel

  /** Overwriting part of a sequence. */
  function Splice(s: seq<u8>, at: nat, piece: seq<u8>): seq<u8> {
    if at + |piece| <= |s| then s[..at] + piece + s[at + |piece|..] else s
  }

  lemma SpliceLast(a: seq<u8>, b: seq<u8>, index: nat, piece: seq<u8>)
    requires index + |piece| <= |b|
    ensures a + Splice(b, index, piece) == Splice(a + b, |a| + index, piece)
  {
  }

  lemma SpliceEnd(s: seq<u8>, at: nat, piece: seq<u8>)
    requires at + |piece| == |s|
    ensures Splice(s, at, piece) == s[..at] + piece
  {
  }

  lemma SpliceNothing(s: seq<u8>, at: nat, piece: seq<u8>)
    requires piece == []
    ensures Splice(s, at, piece) == s
  {
  }

  /** Where in its chain the next byte of a session goes. */
  function Place(length: nat): nat { if length < HEAD_SIZE then 0 else length - HEAD_SIZE }

  /** The chain of n chunks holds what a payload of this length needs, and at most one empty chunk. */
  predicate FitsChain(length: nat, n: nat) {
    && (n == 0 ==> length <= HEAD_SIZE)
    && (n > 0 ==> HEAD_SIZE + BLOCK_SIZE * (n - 1) <= length <= HEAD_SIZE + BLOCK_SIZE * n)
  }

  lemma QuotientOf(full: nat, size: nat)
    requires size < BLOCK_SIZE
    ensures (BLOCK_SIZE * full + size) / BLOCK_SIZE == full
  {
    Quotient(full, size);
  }

  /** In a chain that fits, storing goes on where the length says. */
  lemma PlaceFound(length: nat, n: nat, size: nat)
    requires FitsChain(length, n) && length < PAYLOAD_LEN_LIMIT && size < FRAME_DATA_MAX
    requires HeadShare(length, size) < size || length == HEAD_SIZE
    ensures FirstChunk(length, n, size) > 0 && ChunkIndex(length, n) < BLOCK_SIZE
    ensures BLOCK_SIZE * (FirstChunk(length, n, size) - 1) + ChunkIndex(length, n) == Place(length)
    ensures Place(length) <= BLOCK_SIZE * n
  {
    if n > 0 {
      var d := length - HEAD_SIZE;
      var full := if d == BLOCK_SIZE * n then n else n - 1;
      InChunk(length, n, full, d - BLOCK_SIZE * full, size);
    }
  }

  /** `full` chunks are full, and the next one holds `last` bytes. */
  lemma InChunk(length: nat, n: nat, full: nat, last: nat, size: nat)
    requires n > 0 && full in {n - 1, n} && last < BLOCK_SIZE && (full == n ==> last == 0)
    requires length == HEAD_SIZE + BLOCK_SIZE * full + last < PAYLOAD_LEN_LIMIT && size < FRAME_DATA_MAX
    ensures ChunkIndex(length, n) == last && FirstChunk(length, n, size) == full + 1
  {
    hide ChunkIndex, FirstChunk;
    var d := BLOCK_SIZE * full + last;
    Unwrapped(length, n, d, size);
    Quotient(full, last);
    if last == 0 {
      QuotientOf(full, size);
    }
  }

  /** Lengths this small do not wrap around. */
  lemma Unwrapped(length: nat, n: nat, d: nat, size: nat)
    requires n > 0 && length == HEAD_SIZE + d < PAYLOAD_LEN_LIMIT && size < FRAME_DATA_MAX
    ensures ChunkIndex(length, n) == d % BLOCK_SIZE
    ensures FirstChunk(length, n, size) == if (d + size) / BLOCK_SIZE + 1 > n && d % BLOCK_SIZE == 0 then n + 1 else n
  {
    NoWrap(d);
    NoWrap(d + size);
    assert length - HEAD_SIZE == d && length + size - HEAD_SIZE == d + size;
  }

  lemma NoWrap(x: nat)
    requires x < 0x1_0000_0000
    ensures x % 0x1_0000_0000 == x
  {
  }

  /** `after` agrees with `before` up to `at` and holds `piece` there. */
  predicate Overwritten(before: seq<u8>, after: seq<u8>, at: nat, piece: seq<u8>) {
    at <= |before| && at + |piece| <= |after| && after[..at + |piece|] == before[..at] + piece
  }

  lemma OverwrittenNothing(b: seq<u8>, at: nat, data: seq<u8>, from: nat)
    requires at <= |b| && from <= |data|
    ensures Overwritten(b, b, at, data[from..from])
  {
  }

  lemma OverwrittenFurther(b0: seq<u8>, b1: seq<u8>, at: nat, data: seq<u8>, from: nat, mid: nat, to: nat)
    requires from <= mid <= to <= |data| && Overwritten(b0, b1, at, data[from..mid])
    requires at + (to - from) <= |b1|
    ensures Overwritten(b0, Splice(b1, at + (mid - from), data[mid..to]), at, data[from..to])
    ensures |Splice(b1, at + (mid - from), data[mid..to])| == |b1|
  {
    var piece := data[mid..to];
    var p1 := at + (mid - from);
    assert Splice(b1, p1, piece)[..p1 + |piece|] == b1[..p1] + piece;
    assert data[from..to] == data[from..mid] + piece;
  }

  lemma OverwrittenLonger(b0: seq<u8>, b1: seq<u8>, b2: seq<u8>, at: nat, piece: seq<u8>)
    requires Overwritten(b0, b1, at, piece) && b1 <= b2
    ensures Overwritten(b0, b2, at, piece)
  {
  }

  lemma OverwrittenShorter(b0: seq<u8>, b1: seq<u8>, b2: seq<u8>, at: nat, piece: seq<u8>)
    requires Overwritten(b1, b2, at, piece) && b0 <= b1 && at <= |b0|
    ensures Overwritten(b0, b2, at, piece)
  {
    assert b0[..at] == b1[..at];
  }

  /** What storing `data` does to a session; `ok` says whether the pool had the chunks. */
  predicate Pushed(s: Session, s': Session, data: seq<u8>, free: nat, ok: bool) {
    var after := BlocksAfter(|s.payload|, s.blocks, |data|);
    && ok == (after <= s.blocks + free)
    && (ok ==> s'.blocks == after && s'.payload == Stored(s, data, s'.payload))
  }

  lemma StoredInHead(rx: RxFields, head: seq<u8>, bytes: seq<u8>, n: nat, data: seq<u8>, free: nat)
    requires |rx.head| == HEAD_SIZE && |bytes| == BLOCK_SIZE * n && rx.payloadLen != HEAD_SIZE
    requires |data| == HeadShare(rx.payloadLen, |data|) && head == Splice(rx.head, rx.payloadLen, data)
    ensures Pushed(SessionOf(rx, bytes, n),
                   SessionOf(rx.(head := head, payloadLen := (rx.payloadLen + |data|) % PAYLOAD_LEN_LIMIT), bytes, n),
                   data, free, true)
  {
    hide Regular, Prefix;
    var s, length := SessionOf(rx, bytes, n), (rx.payloadLen + |data|) % PAYLOAD_LEN_LIMIT;
    PrefixAll(Prefix(head + bytes, length));
    if rx.payloadLen < HEAD_SIZE {
      PrefixHead(rx.head, bytes, rx.payloadLen);
      PrefixHead(head, bytes, length);
      PrefixAll(s.payload + data);
      assert head[..length] == rx.head[..rx.payloadLen] + data;
    } else {
      assert head == rx.head && s.payload + data == s.payload;
      PrefixAll(s.payload);
    }
  }

  lemma StoredInChain(rx: RxFields, rx': RxFields, bytes: seq<u8>, n: nat, bytes': seq<u8>, n': nat,
                      data: seq<u8>, to: nat, free: nat, ok: bool)
    requires |rx.head| == HEAD_SIZE && |bytes| == BLOCK_SIZE * n && |data| < FRAME_DATA_MAX
    requires to == HeadShare(rx.payloadLen, |data|) && (to < |data| || rx.payloadLen == HEAD_SIZE)
    requires rx'.head == Splice(rx.head, rx.payloadLen, data[..to])
    requires ok == (BlocksAfter(rx.payloadLen, n, |data|) <= n + free)
    requires ok ==> n' == BlocksAfter(rx.payloadLen, n, |data|)
    requires ok ==> rx'.payloadLen == (rx.payloadLen + |data|) % PAYLOAD_LEN_LIMIT
    requires FitsChain(rx.payloadLen, n) && ok ==> Overwritten(bytes, bytes', Place(rx.payloadLen), data[to..])
    ensures Pushed(SessionOf(rx, bytes, n), SessionOf(rx', bytes', n'), data, free, ok)
  {
    hide Splice, Overwritten, BlocksAfter, Prefix;
    var s := SessionOf(rx, bytes, n);
    PrefixAll(Prefix(rx'.head + bytes', rx'.payloadLen));
    if FitsChain(rx.payloadLen, n) && ok {
      StoredBytes(rx.head, rx'.head, bytes, bytes', rx.payloadLen, to, data);
      PrefixPrefix(rx'.head + bytes', rx.payloadLen + |data|, rx'.payloadLen);
    }
  }

  lemma PrefixPrefix(s: seq<u8>, n: nat, m: nat)
    requires m <= n
    ensures Prefix(Prefix(s, n), m) == Prefix(s, m)
  {
    var long, short := Prefix(Prefix(s, n), m), Prefix(s, m);
    assert forall i :: 0 <= i < m ==> long[i] == short[i];
  }

  lemma StoredBytes(head: seq<u8>, head': seq<u8>, bytes: seq<u8>, bytes': seq<u8>, length: nat, to: nat, data: seq<u8>)
    requires |head| == HEAD_SIZE && to <= |data| && to == HeadShare(length, |data|)
    requires head' == Splice(head, length, data[..to]) && length + to >= HEAD_SIZE
    requires Overwritten(bytes, bytes', Place(length), data[to..])
    ensures Prefix(head' + bytes', length + |data|) == Prefix(head + bytes, length) + data
  {
    hide Prefix, Splice;
    var place, rest := Place(length), data[to..];
    if length < HEAD_SIZE {
      PrefixHead(head, bytes, length);
      SpliceEnd(head, length, data[..to]);
      PrefixSplit(head', bytes', place + |rest|);
      Regroup(head[..length], data[..to], rest, data);
    } else {
      PrefixSplit(head, bytes, place);
      SpliceNothing(head, length, data[..to]);
      PrefixSplit(head', bytes', place + |rest|);
      Regroup(head, bytes[..place], rest, bytes[..place] + data);
    }
  }

  lemma PrefixSplit(head: seq<u8>, bytes: seq<u8>, n: nat)
    requires |head| == HEAD_SIZE && n <= |bytes|
    ensures Prefix(head + bytes, HEAD_SIZE + n) == head + bytes[..n]
  {
  }

  lemma PrefixHead(head: seq<u8>, bytes: seq<u8>, n: nat)
    requires n <= |head|
    ensures Prefix(head + bytes, n) == head[..n]
  {
  }

  lemma Regroup(a: seq<u8>, b: seq<u8>, c: seq<u8>, bc: seq<u8>)
    requires bc == b + c
    ensures (a + b) + c == a + bc && a + (b + c) == a + bc
  {
  }

  /** The last frame of a transfer: its first bytes complete the storage, the rest stays in the frame. */
  predicate Completed(rx: RxFields, rx': RxFields, bytes: seq<u8>, bytes': seq<u8>, to: nat, body: seq<u8>) {
    to <= |body| &&
    Prefix(rx'.head + bytes' + body[to..], rx.payloadLen + |body|) == Prefix(rx.head + bytes, rx.payloadLen) + body
  }

  lemma CompletedInHead(rx: RxFields, rx': RxFields, bytes: seq<u8>, to: nat, body: seq<u8>)
    requires |rx.head| == HEAD_SIZE && rx.payloadLen < HEAD_SIZE && bytes == []
    requires to == HeadShare(rx.payloadLen, |body|) && rx'.head == Splice(rx.head, rx.payloadLen, body[..to])
    ensures Completed(rx, rx', bytes, bytes, to, body)
  {
    hide Prefix;
    var n := rx.payloadLen as nat;
    assert body == body[..to] + body[to..];
    PrefixHead(rx.head, bytes, n);
    if to == |body| {
      assert rx'.head + bytes + body[to..] == rx'.head + [];
      PrefixHead(rx'.head, [], n + to);
      assert rx'.head[..n + to] == rx.head[..n] + body;
    } else {
      SpliceEnd(rx.head, n, body[..to]);
      assert rx'.head + bytes + body[to..] == rx'.head + body[to..];
      PrefixSplit(rx'.head, body[to..], |body[to..]|);
      Regroup(rx.head[..n], body[..to], body[to..], body);
    }
  }

  lemma CompletedAfterHead(rx: RxFields, body: seq<u8>)
    requires |rx.head| == HEAD_SIZE == rx.payloadLen
    ensures Completed(rx, rx, [], [], 0, body)
  {
    assert rx.head + [] + body[0..] == rx.head + body && rx.head + [] == rx.head;
  }

  lemma CompletedInChain(rx: RxFields, bytes: seq<u8>, n: nat, to: nat, body: seq<u8>)
    requires |rx.head| == HEAD_SIZE && n > 0 && |bytes| == BLOCK_SIZE * n
    requires FitsChain(rx.payloadLen, n)
    requires to == (if |body| < |bytes| - Place(rx.payloadLen) then |body| else |bytes| - Place(rx.payloadLen))
    ensures Completed(rx, rx, bytes, Splice(bytes, Place(rx.payloadLen), body[..to]), to, body)
  {
    hide Prefix;
    var place := Place(rx.payloadLen);
    var bytes' := Splice(bytes, place, body[..to]);
    assert bytes'[..place + to] == bytes[..place] + body[..to];
    assert body == body[..to] + body[to..];
    PrefixSplit(rx.head, bytes, place);
    assert rx.head + bytes' + body[to..] == rx.head + (bytes' + body[to..]);
    PrefixSplit(rx.head, bytes' + body[to..], place + |body|);
    if to == |body| {
      assert (bytes' + body[to..])[..place + |body|] == bytes[..place] + body;
    } else {
      assert bytes' == bytes[..place] + body[..to];
      Regroup(bytes[..place], body[..to], body[to..], body);
      assert bytes' + body[to..] == bytes[..place] + body;
    }
    Regroup(rx.head, bytes[..place], body, bytes[..place] + body);
  }

  /** Bytes of the last frame that go into the storage. */
  function LastShare(length: nat, n: nat, size: nat): nat {
    if length < HEAD_SIZE then HeadShare(length, size)
    else if size < BLOCK_SIZE * n - Place(length) then size
    else if Place(length) <= BLOCK_SIZE * n then BLOCK_SIZE * n - Place(length)
    else 0
  }

  lemma LastScattered(t: RxTransfer, length: nat, n: nat, size: nat)
    requires FitsChain(length, n) && |t.head| == HEAD_SIZE && (t.middle == NULL <==> n == 0)
    requires t.payloadLen == length + size && LastShare(length, n, size) <= size
    requires |t.tail| == size - LastShare(length, n, size)
    ensures WellScattered(t, n)
  {
  }
}
