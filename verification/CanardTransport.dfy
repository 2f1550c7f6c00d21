/** Transfers on values: how a sender cuts a payload into frames and how a reception session
    puts frames together again. CanardInstance implements these functions on the block arena. */
module CanardTransport {
  import opened Bits
  import opened CanardFrame
  import opened TransferCrc

  const TRANSFER_TIMEOUT: u64 := 2_000_000
  const IFACE_SWITCH_DELAY: u64 := 1_000_000

  /** The longest payload whose last frame starts within the ten-bit length field of a session. */
  const RX_PAYLOAD_MAX := 1027

  // ---------- Sending ----------

  /** Payload bytes the frame starting at `index` takes: the first one also carries the CRC. */
  function FrameShare(total: nat, index: nat): nat
    requires index <= total
  {
    var room := if index == 0 then 5 else 7;
    if total - index < room then total - index else room
  }

  function MultiFrame(id: Id, payload: seq<u8>, crc: Register, tid: Tid, index: nat, toggle: bool): Frame
    requires index < |payload|
  {
    var next := index + FrameShare(|payload|, index);
    var flags := if next == |payload| then END else if index == 0 then START else 0;
    Frame(id, (if index == 0 then CrcBytes(crc) else []) + payload[index..next] + [TailByte(flags, toggle, tid)], 0)
  }

  /** The frames of a multi-frame transfer from byte `index` on. */
  function MultiFrames(id: Id, payload: seq<u8>, crc: Register, tid: Tid, index: nat, toggle: bool): seq<Frame>
    requires index <= |payload|
    decreases |payload| - index
  {
    if index == |payload| then []
    else [MultiFrame(id, payload, crc, tid, index, toggle)] +
         MultiFrames(id, payload, crc, tid, index + FrameShare(|payload|, index), !toggle)
  }

  function SingleFrame(id: Id, payload: seq<u8>, tid: Tid): Frame {
    Frame(id, payload + [TailByte(START + END, false, tid)], 0)
  }

  function PayloadCrc(signature: u64, payload: seq<u8>): Register {
    Crc(Crc(INITIAL, SignatureBytes(signature)), payload)
  }

  function TransferFrames(id: Id, payload: seq<u8>, crc: Register, tid: Tid): seq<Frame> {
    if |payload| < FRAME_DATA_MAX then [SingleFrame(id, payload, tid)]
    else MultiFrames(id, payload, crc, tid, 0, false)
  }

  /** Number of frames of a transfer. */
  function FrameCount(length: nat): nat {
    if length < FRAME_DATA_MAX then 1 else (length + 2 + 6) / 7
  }

  lemma {:induction false} MultiFrameCount(id: Id, payload: seq<u8>, crc: Register, tid: Tid, index: nat, toggle: bool)
    requires index <= |payload| && (index == 0 ==> |payload| >= 5)
    ensures |MultiFrames(id, payload, crc, tid, index, toggle)| ==
            if index == 0 then (|payload| + 2 + 6) / 7 else (|payload| - index + 6) / 7
    decreases |payload| - index
  {
    if index < |payload| {
      MultiFrameCount(id, payload, crc, tid, index + FrameShare(|payload|, index), !toggle);
    }
  }

  lemma {:induction false} MultiFramesFrom(id: Id, payload: seq<u8>, crc: Register, tid: Tid, index: nat, toggle: bool)
    requires index < |payload|
    ensures var fs := MultiFrames(id, payload, crc, tid, index, toggle);
      |fs| > 0 && fs[0] == MultiFrame(id, payload, crc, tid, index, toggle) &&
      fs[1..] == MultiFrames(id, payload, crc, tid, index + FrameShare(|payload|, index), !toggle)
  {
    hide MultiFrame;
    var f := MultiFrame(id, payload, crc, tid, index, toggle);
    var rest := MultiFrames(id, payload, crc, tid, index + FrameShare(|payload|, index), !toggle);
    assert ([f] + rest)[1..] == rest;
  }

  lemma MultiFramesEnd(id: Id, payload: seq<u8>, crc: Register, tid: Tid, toggle: bool)
    ensures MultiFrames(id, payload, crc, tid, |payload|, toggle) == []
  {
  }

  // ---------- Receiving ----------

  /** A reception session: `payload` are the bytes stored so far, `blocks` the chunks they occupy
      beyond the bytes kept in the session block. */
  datatype Session = Session(
    descriptor: nat, timestamp: u64, calculatedCrc: Register, transferId: Tid, nextToggle: bool,
    payloadCrc: Register, iface: u8, payload: seq<u8>, blocks: nat)

  function Fresh(descriptor: nat): Session {
    Session(descriptor, 0, CLEAR, 0, false, CLEAR, 0, [], 0)
  }

  /** Chunks needed to store `length` bytes. */
  function BlocksFor(length: nat): nat {
    if length <= HEAD_SIZE then 0 else (length - HEAD_SIZE + BLOCK_SIZE - 1) / BLOCK_SIZE
  }

  /** Bytes that still fit into the session block. */
  function HeadShare(length: nat, n: nat): nat {
    if length >= HEAD_SIZE then 0 else if n < HEAD_SIZE - length then n else HEAD_SIZE - length
  }

  /** The index in a chunk at which storing goes on, as the unsigned arithmetic of the source has it. */
  function ChunkIndex(length: nat, blocks: nat): nat {
    if blocks == 0 then 0 else ((length - HEAD_SIZE) % 0x1_0000_0000) % BLOCK_SIZE
  }

  /** Chunks after the one in which storing goes on has been found: a new one when there is none, or when the
      last one is full. */
  function FirstChunk(length: nat, blocks: nat, n: nat): nat {
    if blocks == 0 || (((length + n - HEAD_SIZE) % 0x1_0000_0000) / BLOCK_SIZE + 1 > blocks && ChunkIndex(length, blocks) == 0)
    then blocks + 1 else blocks
  }

  /** Chunks needed beyond the current one when n bytes are stored from `start` on. */
  function Spill(start: nat, n: nat): nat { if n > BLOCK_SIZE - start then 1 else 0 }

  /** Chunks in use after the n bytes of one more frame, whatever the length field says by then. An empty push onto
      an exactly full head still claims a chunk. */
  function BlocksAfter(length: nat, blocks: nat, n: nat): (after: nat)
    ensures after >= blocks
  {
    var rest := n - HeadShare(length, n);
    if rest == 0 && length != HEAD_SIZE then blocks
    else FirstChunk(length, blocks, n) + Spill(ChunkIndex(length, blocks), rest)
  }

  /** The stored bytes lie in the head and, without a gap, in the chain; the length field has not overflowed. */
  predicate Regular(s: Session) {
    && |s.payload| < PAYLOAD_LEN_LIMIT
    && (s.blocks == 0 ==> |s.payload| <= HEAD_SIZE)
    && (s.blocks > 0 ==> HEAD_SIZE + BLOCK_SIZE * (s.blocks - 1) <= |s.payload| <= HEAD_SIZE + BLOCK_SIZE * s.blocks)
  }

  /** When a frame arrives, and what is found in the storage of a session whose length field has overflowed: which
      bytes lie there depends on the history of the memory. */
  datatype Moment = Moment(time: u64, memory: seq<u8>)

  /** The first n bytes of s, padded if s is shorter. */
  function Prefix(s: seq<u8>, n: nat): (t: seq<u8>)
    ensures |t| == n
  {
    if n <= |s| then s[..n] else s + seq(n - |s|, _ => 0)
  }

  /** The last byte of a frame; frames without one are refused before it is read. */
  function Tail(f: Frame): u8 {
    if f.data == [] then 0 else f.data[|f.data| - 1]
  }

  function Body(f: Frame): seq<u8> {
    if f.data == [] then [] else f.data[..|f.data| - 1]
  }

  /** The frame does not overflow the session's ten-bit length field. */
  predicate Storable(s: Session, f: Frame) {
    |s.payload| + |Body(f)| < PAYLOAD_LEN_LIMIT || IsStart(Tail(f)) || IsEnd(Tail(f))
  }

  datatype Code =
    | Ok | IncompatiblePacket | WrongAddress | NotWanted | MissedStart | WrongToggle
    | UnexpectedTid | ShortFrame | OutOfMemory | BadCrc

  /** Effect of one frame on its session: the new session, the free blocks left, the blocks handed to
      the application together with the delivered payload, and the return code. */
  datatype Outcome = Outcome(session: Session, free: nat, held: nat, code: Code, delivered: Option<seq<u8>>)

  predicate NeedRestart(s: Session, f: Frame, now: Moment) {
    var tail := Tail(f);
    var first := IsStart(tail);
    || s.timestamp == 0
    || Elapsed(now.time, s.timestamp) > TRANSFER_TIMEOUT
    || (f.iface == s.iface && first &&
        (ForwardDistance(s.transferId, TransferId(tail)) > 1 || s.blocks != 0))
    || (Elapsed(now.time, s.timestamp) > IFACE_SWITCH_DELAY && first &&
        ForwardDistance(TransferId(tail), s.transferId) < 16)
  }

  /** A first frame on the session's interface is taken without restart only when no chunk is in use. */
  lemma FirstNotMidway(s: Session, f: Frame, now: Moment)
    requires !NeedRestart(s, f, now)
    ensures IsStart(Tail(f)) && f.iface == s.iface ==> s.blocks == 0
  {
  }

  function Prepared(s: Session): Session {
    s.(transferId := NextTid(s.transferId), payload := [], blocks := 0, nextToggle := false)
  }

  function Restarted(s: Session, f: Frame): Session {
    s.(transferId := TransferId(Tail(f)), nextToggle := false, payload := [], blocks := 0, iface := f.iface)
  }

  /** What a session shows after storing more bytes: the length field has ten bits. When it overflows the session
      shows the beginning of what it stored; from then on the bytes go to other places than the length says. */
  function Stored(s: Session, bytes: seq<u8>, memory: seq<u8>): seq<u8> {
    var length := (|s.payload| + |bytes|) % PAYLOAD_LEN_LIMIT;
    if Regular(s) then Prefix(s.payload + bytes, length) else Prefix(memory, length)
  }

  /** Storing more bytes, or giving the whole transfer up when the pool is exhausted. */
  function Push(s: Session, bytes: seq<u8>, crc: Register, free: nat, memory: seq<u8>): Outcome {
    var after := BlocksAfter(|s.payload|, s.blocks, |bytes|);
    if after > s.blocks + free then
      Outcome(Prepared(s), free + s.blocks, 0, OutOfMemory, None)
    else
      Outcome(s.(payload := Stored(s, bytes, memory), blocks := after, calculatedCrc := Crc(crc, bytes),
                 nextToggle := !s.nextToggle),
              free - (after - s.blocks), 0, Ok, None)
  }

  /** Completing the transfer: deliver it, or drop it when the CRC differs. The CRC is that of the frames, so it is
      right even when the stored bytes are not. */
  function Finish(s: Session, bytes: seq<u8>, free: nat, memory: seq<u8>): Outcome {
    var crc := Crc(s.calculatedCrc, bytes);
    var s' := Prepared(s.(calculatedCrc := crc));
    var whole := if Regular(s) then s.payload + bytes else Prefix(memory, |s.payload| + |bytes|);
    if crc == s.payloadCrc then Outcome(s', free, s.blocks, Ok, Some(whole))
    else Outcome(s', free + s.blocks, 0, BadCrc, None)
  }

  function Accept(s: Session, f: Frame, now: Moment, signature: u64, free: nat): Outcome
  {
    var tail, body := Tail(f), Body(f);
    if f.iface != s.iface then Outcome(s, free, 0, Ok, None)
    else if IsStart(tail) && IsEnd(tail) then
      Outcome(Prepared(s.(timestamp := now.time)), free, 0, Ok, Some(body))
    else if Toggle(tail) != s.nextToggle then Outcome(s, free, 0, WrongToggle, None)
    else if TransferId(tail) != s.transferId then Outcome(s, free, 0, UnexpectedTid, None)
    else if IsStart(tail) then
      if |f.data| <= 3 then Outcome(s, free, 0, ShortFrame, None)
      else
        Push(s.(timestamp := now.time, payload := [], payloadCrc := CrcFromBytes(f.data[0], f.data[1])),
             body[2..], Crc(INITIAL, SignatureBytes(signature)), free, now.memory)
    else if !IsEnd(tail) then
      Push(s, body, s.calculatedCrc, free, now.memory)
    else Finish(s, body, free, now.memory)
  }

  function Receive(s: Session, f: Frame, now: Moment, signature: u64, free: nat): Outcome
  {
    if NeedRestart(s, f, now) then
      var r := Restarted(s, f);
      if IsStart(Tail(f)) then Accept(r, f, now, signature, free + s.blocks)
      else Outcome(r.(transferId := NextTid(r.transferId)), free + s.blocks, 0, MissedStart, None)
    else Accept(s, f, now, signature, free)
  }

  // ---------- A whole transfer ----------

  datatype Reception = Reception(session: Session, free: nat, delivered: seq<seq<u8>>)

  ghost predicate Timely(times: seq<Moment>, start: u64) {
    forall i :: 0 <= i < |times| ==> Elapsed(times[i].time, start) <= TRANSFER_TIMEOUT
  }

  /** One frame through its session; the application returns the payload blocks at once. */
  function ReceiveOne(r: Reception, f: Frame, now: Moment, signature: u64): Reception
  {
    var o := Receive(r.session, f, now, signature, r.free);
    Reception(o.session, o.free + o.held, if o.delivered.Some? then r.delivered + [o.delivered.value] else r.delivered)
  }

  function Feed(r: Reception, fs: seq<Frame>, times: seq<Moment>, signature: u64): Reception
    requires |fs| == |times|
    decreases fs
  {
    if fs == [] then r
    else Feed(ReceiveOne(r, fs[0], times[0], signature), fs[1..], times[1..], signature)
  }

  /** Where the last frame of a multi-frame payload starts. */
  function LastStart(total: nat): nat
    requires total >= FRAME_DATA_MAX
  {
    5 + 7 * ((total - 6) / 7)
  }

  /** The session after `index` payload bytes of a transfer whose first frame came at `start`. */
  function Collecting(descriptor: nat, start: u64, payload: seq<u8>, signature: u64, tid: Tid,
                      index: nat, toggle: bool): Session
    requires index <= |payload|
  {
    Session(descriptor, start, PayloadCrc(signature, payload[..index]), tid, toggle,
            PayloadCrc(signature, payload), 0, payload[..index], BlocksFor(index))
  }

  /** f is the frame of the transfer that carries the payload bytes from `index` on. */
  ghost predicate Carries(f: Frame, payload: seq<u8>, crc: Register, tid: Tid, index: nat, toggle: bool)
    requires index < |payload|
  {
    var next := index + FrameShare(|payload|, index);
    && f.iface == 0 && TransferId(Tail(f)) == tid && Toggle(Tail(f)) == toggle
    && IsStart(Tail(f)) == (index == 0) && IsEnd(Tail(f)) == (next == |payload|)
    && Body(f) == (if index == 0 then CrcBytes(crc) else []) + payload[index..next]
  }

  /** fs are the frames of the transfer from `index` on. */
  ghost predicate Carried(fs: seq<Frame>, payload: seq<u8>, crc: Register, tid: Tid, index: nat, toggle: bool)
    requires index <= |payload|
    decreases fs
  {
    if index == |payload| then fs == []
    else fs != [] && Carries(fs[0], payload, crc, tid, index, toggle) &&
         Carried(fs[1..], payload, crc, tid, index + FrameShare(|payload|, index), !toggle)
  }

  lemma FrameCarries(id: Id, payload: seq<u8>, crc: Register, tid: Tid, index: nat, toggle: bool)
    requires index < |payload| && |payload| >= FRAME_DATA_MAX
    ensures Carries(MultiFrame(id, payload, crc, tid, index, toggle), payload, crc, tid, index, toggle)
  {
    var next := index + FrameShare(|payload|, index);
    var flags := if next == |payload| then END else if index == 0 then START else 0;
    TailByteFields(flags, toggle, tid);
  }

  lemma {:induction false} FramesCarried(id: Id, payload: seq<u8>, crc: Register, tid: Tid, index: nat, toggle: bool)
    requires index <= |payload| && |payload| >= FRAME_DATA_MAX
    ensures Carried(MultiFrames(id, payload, crc, tid, index, toggle), payload, crc, tid, index, toggle)
    decreases |payload| - index
  {
    if index < |payload| {
      var next := index + FrameShare(|payload|, index);
      FrameCarries(id, payload, crc, tid, index, toggle);
      FramesCarried(id, payload, crc, tid, next, !toggle);
      var f := MultiFrame(id, payload, crc, tid, index, toggle);
      var rest := MultiFrames(id, payload, crc, tid, next, !toggle);
      assert ([f] + rest)[1..] == rest;
    }
  }

  // ---------- Frames after the first ----------

  lemma BlocksGrow(index: nat, n: nat)
    requires HEAD_SIZE <= index < PAYLOAD_LEN_LIMIT && 0 < n <= 7
    ensures BlocksAfter(index, BlocksFor(index), n) == BlocksFor(index + n)
  {
    var beyond := index - HEAD_SIZE;
    var full, last := beyond / BLOCK_SIZE, beyond % BLOCK_SIZE;
    BlocksInChain(index, full, last);
    if last + n < BLOCK_SIZE {
      BlocksInChain(index + n, full, last + n);
    } else {
      BlocksInChain(index + n, full + 1, last + n - BLOCK_SIZE);
    }
  }

  lemma BlocksInChain(length: nat, full: nat, last: nat)
    requires length == HEAD_SIZE + BLOCK_SIZE * full + last && last < BLOCK_SIZE && length < 0x1_0000
    ensures BlocksFor(length) == full + if last == 0 then 0 else 1
    ensures BlocksFor(length) > 0 ==> ChunkIndex(length, BlocksFor(length)) == last
    ensures ((length - HEAD_SIZE) % 0x1_0000_0000) / BLOCK_SIZE == full
  {
    Quotient(full, last);
    if last == 0 {
      Quotient(full, BLOCK_SIZE - 1);
    } else {
      Quotient(full + 1, last - 1);
    }
  }

  lemma Quotient(full: nat, last: nat)
    requires last < BLOCK_SIZE
    ensures (BLOCK_SIZE * full + last) / BLOCK_SIZE == full && (BLOCK_SIZE * full + last) % BLOCK_SIZE == last
  {
  }

  /** The blocks of a session that holds the first `index` bytes of a payload. */
  lemma CollectingRegular(d: nat, start: u64, payload: seq<u8>, signature: u64, tid: Tid, index: nat, toggle: bool)
    requires index <= |payload| && index < PAYLOAD_LEN_LIMIT
    ensures Regular(Collecting(d, start, payload, signature, tid, index, toggle))
  {
    hide PayloadCrc;
  }

  lemma CountedRegular(s: Session, index: nat)
    requires |s.payload| == index < PAYLOAD_LEN_LIMIT && s.blocks == BlocksFor(index)
    ensures Regular(s)
  {
  }

  /** Storing within the length field, with enough blocks. */
  lemma PushWithin(s: Session, bytes: seq<u8>, crc: Register, free: nat, memory: seq<u8>)
    requires Regular(s) && |s.payload| + |bytes| < PAYLOAD_LEN_LIMIT
    requires BlocksAfter(|s.payload|, s.blocks, |bytes|) <= s.blocks + free
    ensures
      var after := BlocksAfter(|s.payload|, s.blocks, |bytes|);
      Push(s, bytes, crc, free, memory) ==
      Outcome(s.(payload := s.payload + bytes, blocks := after, calculatedCrc := Crc(crc, bytes), nextToggle := !s.nextToggle),
              free - (after - s.blocks), 0, Ok, None)
  {
    hide Regular, BlocksAfter, Prefix, Crc;
    PrefixAll(s.payload + bytes);
  }

  /** The head takes the bytes of a first frame. */
  lemma PushHead(s: Session, bytes: seq<u8>, crc: Register, free: nat, memory: seq<u8>)
    requires s.payload == [] && s.blocks == 0 && |bytes| <= HEAD_SIZE
    ensures Push(s, bytes, crc, free, memory) ==
            Outcome(s.(payload := bytes, calculatedCrc := Crc(crc, bytes), nextToggle := !s.nextToggle), free, 0, Ok, None)
  {
    hide Crc;
    assert [] + bytes == bytes;
    PushWithin(s, bytes, crc, free, memory);
  }

  lemma PrefixAll(s: seq<u8>)
    ensures Prefix(s, |s|) == s
  {
  }

  lemma BlocksMonotone(a: nat, b: nat)
    requires a <= b
    ensures BlocksFor(a) <= BlocksFor(b)
  {
  }

  lemma CrcExtends(signature: u64, payload: seq<u8>, from: nat, to: nat)
    requires from <= to <= |payload|
    ensures Crc(PayloadCrc(signature, payload[..from]), payload[from..to]) == PayloadCrc(signature, payload[..to])
  {
    assert payload[..from] + payload[from..to] == payload[..to];
    CrcConcat(Crc(INITIAL, SignatureBytes(signature)), payload[..from], payload[from..to]);
  }

  /** No restart is due for a frame after the first that arrives in time. */
  lemma ReceiveLater(s: Session, f: Frame, payload: seq<u8>, crc: Register, signature: u64, tid: Tid,
                     index: nat, toggle: bool, now: Moment, free: nat)
    requires 0 < index < |payload| && Carries(f, payload, crc, tid, index, toggle)
    requires s.iface == 0 && s.nextToggle == toggle && s.transferId == tid && s.timestamp != 0
    requires Elapsed(now.time, s.timestamp) <= TRANSFER_TIMEOUT
    ensures
      var next := index + FrameShare(|payload|, index);
      var o := Receive(s, f, now, signature, free);
      Body(f) == payload[index..next] &&
      if next < |payload| then o == Push(s, payload[index..next], s.calculatedCrc, free, now.memory)
      else o == Finish(s, payload[index..next], free, now.memory)
  {
    var next := index + FrameShare(|payload|, index);
    assert Body(f) == payload[index..next];
    assert Receive(s, f, now, signature, free) == Accept(s, f, now, signature, free);
  }

  /** The last frame completes the transfer and its CRC checks out. */
  lemma FinishDelivers(s: Session, payload: seq<u8>, signature: u64, tid: Tid, index: nat, toggle: bool, free: nat,
                       memory: seq<u8>)
    requires index <= |payload| && index < PAYLOAD_LEN_LIMIT
    requires s == Collecting(s.descriptor, s.timestamp, payload, signature, tid, index, toggle)
    ensures
      var o := Finish(s, payload[index..], free, memory);
      o.free + o.held == free + s.blocks && o.delivered == Some(payload) && Idle(o.session, tid, s.timestamp)
  {
    hide Regular, PayloadCrc;
    CollectingRegular(s.descriptor, s.timestamp, payload, signature, tid, index, toggle);
    assert s.payload + payload[index..] == payload;
    assert payload[..|payload|] == payload && payload[index..|payload|] == payload[index..];
    CrcExtends(signature, payload, index, |payload|);
  }

  /** Storing seven more bytes keeps the session collecting, if the pool has a block when one is due. */
  lemma PushCollects(s: Session, payload: seq<u8>, signature: u64, tid: Tid, index: nat, toggle: bool, free: nat,
                     memory: seq<u8>)
    requires HEAD_SIZE <= index && index + 7 < |payload| && index + 7 < PAYLOAD_LEN_LIMIT
    requires s == Collecting(s.descriptor, s.timestamp, payload, signature, tid, index, toggle) && s.timestamp != 0
    ensures
      var next := index + 7;
      var o := Push(s, payload[index..next], s.calculatedCrc, free, memory);
      if s.blocks + free < BlocksFor(next) then
        o == Outcome(Prepared(s), free + s.blocks, 0, OutOfMemory, None)
      else
        o.delivered == None && o.held == 0 &&
        o.session == Collecting(s.descriptor, s.timestamp, payload, signature, tid, next, !toggle) &&
        o.free + o.session.blocks == free + s.blocks
  {
    hide Regular, BlocksAfter, BlocksFor, PayloadCrc;
    var next := index + 7;
    CollectingRegular(s.descriptor, s.timestamp, payload, signature, tid, index, toggle);
    assert s.payload + payload[index..next] == payload[..next];
    CrcExtends(signature, payload, index, next);
    BlocksGrow(index, 7);
    if s.blocks + free >= BlocksFor(next) {
      PushWithin(s, payload[index..next], s.calculatedCrc, free, memory);
    }
  }

  lemma FeedStep(r: Reception, fs: seq<Frame>, times: seq<Moment>, signature: u64)
    requires |fs| == |times| > 0
    ensures Feed(r, fs, times, signature) ==
            Feed(ReceiveOne(r, fs[0], times[0], signature), fs[1..], times[1..], signature)
  {
  }

  lemma FeedNothing(r: Reception, times: seq<Moment>, signature: u64)
    requires times == []
    ensures Feed(r, [], times, signature) == r
  {
  }

  lemma StepLast(r: Reception, f: Frame, payload: seq<u8>, signature: u64, tid: Tid,
                 index: nat, toggle: bool, now: Moment, d: nat, start: u64) returns (r1: Reception)
    requires 0 < index < |payload| && |payload| - index <= 7 && index < PAYLOAD_LEN_LIMIT
    requires Carries(f, payload, PayloadCrc(signature, payload), tid, index, toggle)
    requires r.session == Collecting(d, start, payload, signature, tid, index, toggle) && start != 0
    requires Elapsed(now.time, start) <= TRANSFER_TIMEOUT
    ensures r1 == ReceiveOne(r, f, now, signature)
    ensures r1.delivered == r.delivered + [payload] && r1.free == r.free + r.session.blocks
    ensures Idle(r1.session, tid, start)
  {
    hide Receive, PayloadCrc, Elapsed;
    r1 := ReceiveOne(r, f, now, signature);
    ReceiveLater(r.session, f, payload, PayloadCrc(signature, payload), signature, tid, index, toggle, now, r.free);
    assert payload[index..|payload|] == payload[index..];
    FinishDelivers(r.session, payload, signature, tid, index, toggle, r.free, now.memory);
  }

  lemma StepMiddle(r: Reception, f: Frame, payload: seq<u8>, signature: u64, tid: Tid,
                   index: nat, toggle: bool, now: Moment, d: nat, start: u64) returns (r1: Reception)
    requires HEAD_SIZE <= index && index + 7 < |payload| && index + 7 < PAYLOAD_LEN_LIMIT
    requires Carries(f, payload, PayloadCrc(signature, payload), tid, index, toggle)
    requires r.session == Collecting(d, start, payload, signature, tid, index, toggle) && start != 0
    requires Elapsed(now.time, start) <= TRANSFER_TIMEOUT
    ensures r1 == ReceiveOne(r, f, now, signature)
    ensures r1.delivered == r.delivered && r1.free + r1.session.blocks == r.free + r.session.blocks
    ensures
      if r.session.blocks + r.free < BlocksFor(index + 7) then r1.session == Prepared(r.session)
      else r1.session == Collecting(d, start, payload, signature, tid, index + 7, !toggle)
  {
    hide Receive, PayloadCrc, Elapsed, Carries, BlocksFor, Push, Finish;
    r1 := ReceiveOne(r, f, now, signature);
    ReceiveLater(r.session, f, payload, PayloadCrc(signature, payload), signature, tid, index, toggle, now, r.free);
    PushCollects(r.session, payload, signature, tid, index, toggle, r.free, now.memory);
  }

  lemma CarriedNext(fs: seq<Frame>, payload: seq<u8>, crc: Register, tid: Tid, index: nat, toggle: bool)
    requires 0 < index < |payload| && Carried(fs, payload, crc, tid, index, toggle)
    ensures fs != [] && Carries(fs[0], payload, crc, tid, index, toggle)
    ensures index + 7 < |payload| ==> Carried(fs[1..], payload, crc, tid, index + 7, !toggle)
    ensures index + 7 >= |payload| ==> fs[1..] == []
  {
    hide Carries;
  }

  /** From a collecting session with enough blocks the rest of the transfer is delivered. */
  lemma {:induction false} CollectRest(r: Reception, fs: seq<Frame>, payload: seq<u8>, signature: u64, tid: Tid,
                                       index: nat, toggle: bool, times: seq<Moment>, more: nat, d: nat, start: u64)
    requires HEAD_SIZE <= index && index + 7 * more < |payload| <= index + 7 * more + 7
    requires index + 7 * more < PAYLOAD_LEN_LIMIT
    requires Carried(fs, payload, PayloadCrc(signature, payload), tid, index, toggle)
    requires r.session == Collecting(d, start, payload, signature, tid, index, toggle) && start != 0
    requires |times| == |fs| && Timely(times, start)
    requires r.free + r.session.blocks >= BlocksFor(index + 7 * more)
    ensures
      var r' := Feed(r, fs, times, signature);
      r'.delivered == r.delivered + [payload] && r'.free == r.free + r.session.blocks &&
      Idle(r'.session, tid, start)
    decreases more
  {
    hide ReceiveOne, PayloadCrc, Elapsed, BlocksFor, Feed, Carried, Carries;
    CarriedNext(fs, payload, PayloadCrc(signature, payload), tid, index, toggle);
    FeedStep(r, fs, times, signature);
    if more == 0 {
      var r1 := StepLast(r, fs[0], payload, signature, tid, index, toggle, times[0], d, start);
      FeedNothing(r1, times[1..], signature);
    } else {
      var r1 := StepMiddle(r, fs[0], payload, signature, tid, index, toggle, times[0], d, start);
      BlocksMonotone(index + 7, index + 7 * more);
      CollectRest(r1, fs[1..], payload, signature, tid, index + 7, !toggle, times[1..], more - 1, d, start);
    }
  }

  /** A session that has just finished transfer `tid` and waits for the next. */
  predicate Idle(s: Session, tid: Tid, timestamp: u64) {
    && s.payload == [] && s.blocks == 0 && !s.nextToggle && s.iface == 0
    && s.transferId == NextTid(tid) && s.timestamp == timestamp
  }

  // ---------- Frames that belong to no transfer the session follows ----------

  /** The session cannot take a continuation frame of transfer `tid`. */
  predicate Deaf(s: Session, tid: Tid) { s.transferId != tid || s.iface != 0 }

  lemma DeafOne(s: Session, f: Frame, tid: Tid, now: Moment, signature: u64, free: nat)
    requires f.iface == 0 && !IsStart(Tail(f)) && TransferId(Tail(f)) == tid
    requires Deaf(s, tid)
    ensures var o := Receive(s, f, now, signature, free);
      Deaf(o.session, tid) && o.delivered == None
  {
  }

  lemma {:induction false} DeafRest(r: Reception, fs: seq<Frame>, payload: seq<u8>, crc: Register, signature: u64,
                                    tid: Tid, index: nat, toggle: bool, times: seq<Moment>)
    requires 0 < index <= |payload| && Deaf(r.session, tid)
    requires Carried(fs, payload, crc, tid, index, toggle) && |times| == |fs|
    ensures Feed(r, fs, times, signature).delivered == r.delivered
    decreases |payload| - index
  {
    if index < |payload| {
      FeedStep(r, fs, times, signature);
      DeafOne(r.session, fs[0], tid, times[0], signature, r.free);
      DeafRest(ReceiveOne(r, fs[0], times[0], signature), fs[1..], payload, crc, signature, tid,
               index + FrameShare(|payload|, index), !toggle, times[1..]);
    }
  }

  /** With too few blocks the transfer is given up on the way and nothing is delivered. */
  lemma {:induction false} StarvedRest(r: Reception, fs: seq<Frame>, payload: seq<u8>, signature: u64, tid: Tid,
                                       index: nat, toggle: bool, times: seq<Moment>, more: nat, d: nat, start: u64)
    requires HEAD_SIZE <= index && index + 7 * more < |payload| && index + 7 * more < PAYLOAD_LEN_LIMIT && more > 0
    requires Carried(fs, payload, PayloadCrc(signature, payload), tid, index, toggle)
    requires r.session == Collecting(d, start, payload, signature, tid, index, toggle) && start != 0
    requires |times| == |fs| && Timely(times, start)
    requires r.free + r.session.blocks < BlocksFor(index + 7 * more)
    ensures Feed(r, fs, times, signature).delivered == r.delivered
    decreases more
  {
    hide ReceiveOne, PayloadCrc, Elapsed, Feed, Carried, Carries;
    CarriedNext(fs, payload, PayloadCrc(signature, payload), tid, index, toggle);
    FeedStep(r, fs, times, signature);
    var r1 := StepMiddle(r, fs[0], payload, signature, tid, index, toggle, times[0], d, start);
    if more == 1 || r.session.blocks + r.free < BlocksFor(index + 7) {
      assert r.session.blocks + r.free < BlocksFor(index + 7);
      DeafRest(r1, fs[1..], payload, PayloadCrc(signature, payload), signature, tid, index + 7, !toggle, times[1..]);
    } else {
      StarvedRest(r1, fs[1..], payload, signature, tid, index + 7, !toggle, times[1..], more - 1, d, start);
    }
  }

  // ---------- The main result about one transfer ----------

  /** The first frame opens the transfer: a restart is due, or it carries the awaited ID. */
  predicate Opens(s: Session, f: Frame, now: Moment) {
    NeedRestart(s, f, now) || (f.iface == s.iface && !s.nextToggle && TransferId(Tail(f)) == s.transferId)
  }

  /** `tid` is the awaited transfer ID or one of the fifteen after it. */
  predicate Ahead(tid: Tid, awaited: Tid) {
    awaited <= tid < awaited + 16 || tid + 16 < awaited
  }

  /** Which transfers a session takes up, told by what it has seen. A new session, or one that has been silent for two
      seconds, takes any. On another interface it follows after one second, and only forward. In the middle of a transfer
      it takes any; after only the first frame of one, any but that one and the one before it, and that one again after
      a second. Between transfers it takes any but the one it has just received. */
  predicate Welcomes(s: Session, f: Frame, now: Moment) {
    var tid, age := TransferId(Tail(f)), Elapsed(now.time, s.timestamp);
    if s.timestamp == 0 || age > 2_000_000 then true
    else if f.iface != s.iface then age > 1_000_000 && Ahead(tid, s.transferId)
    else if s.blocks > 0 then true
    else if s.nextToggle then
      s.transferId != NextTid(tid) && (tid == s.transferId ==> age > 1_000_000)
    else s.transferId != NextTid(tid)
  }

  lemma OpensExactly(s: Session, f: Frame, now: Moment)
    requires IsStart(Tail(f))
    ensures Opens(s, f, now) <==> Welcomes(s, f, now)
  {
    hide Elapsed;
    Distances(TransferId(Tail(f)), s.transferId);
  }

  lemma Distances(tid: Tid, awaited: Tid)
    ensures ForwardDistance(awaited, tid) > 1 <==> tid != awaited && awaited != NextTid(tid)
    ensures ForwardDistance(tid, awaited) < 16 <==> Ahead(tid, awaited)
    ensures awaited == NextTid(tid) ==> !Ahead(tid, awaited) && tid != awaited
    ensures tid == awaited ==> Ahead(tid, awaited)
  {
  }

  /** A frame other than a first one starts a session over only when there is nothing to continue. */
  lemma ContinuesExactly(s: Session, f: Frame, now: Moment)
    requires !IsStart(Tail(f))
    ensures NeedRestart(s, f, now) <==> s.timestamp == 0 || Elapsed(now.time, s.timestamp) > 2_000_000
  {
  }

  lemma ReceiveFirst(s: Session, f: Frame, payload: seq<u8>, signature: u64, tid: Tid, now: Moment, free: nat)
    requires FRAME_DATA_MAX <= |payload| && now.time != 0
    requires Carries(f, payload, PayloadCrc(signature, payload), tid, 0, false)
    requires Opens(s, f, now)
    ensures
      var o := Receive(s, f, now, signature, free);
      o.delivered == None && o.held == 0 && o.free == free + s.blocks &&
      o.session == Collecting(s.descriptor, now.time, payload, signature, tid, 5, true)
  {
    hide PayloadCrc, CrcFromBytes, CrcBytes, ForwardDistance, Elapsed;
    var crc := PayloadCrc(signature, payload);
    CrcBytesRoundTrip(crc);
    var r := if NeedRestart(s, f, now) then Restarted(s, f) else s;
    assert Receive(s, f, now, signature, free) == Accept(r, f, now, signature, free + s.blocks);
    StartPushes(r, f, payload, crc, signature, tid, now, free + s.blocks);
  }

  lemma StartPushes(r: Session, f: Frame, payload: seq<u8>, crc: Register, signature: u64, tid: Tid, now: Moment, free: nat)
    requires FRAME_DATA_MAX <= |payload| && Carries(f, payload, crc, tid, 0, false)
    requires r.iface == 0 && !r.nextToggle && r.transferId == tid && r.blocks == 0
    ensures
      Accept(r, f, now, signature, free) ==
      Outcome(r.(timestamp := now.time, payload := payload[..5], payloadCrc := CrcFromBytes(CrcBytes(crc)[0], CrcBytes(crc)[1]),
                 calculatedCrc := PayloadCrc(signature, payload[..5]), nextToggle := true), free, 0, Ok, None)
  {
    assert Body(f) == CrcBytes(crc) + payload[0..5];
    assert f.data[0] == Body(f)[0] && f.data[1] == Body(f)[1];
    assert Body(f)[2..] == payload[..5];
    assert [] + payload[..5] == payload[..5];
  }

  /** Nothing was delivered, or one payload of another length. */
  ghost predicate Misses(before: seq<seq<u8>>, after: seq<seq<u8>>, payload: seq<u8>) {
    after == before || exists x: seq<u8> :: |x| != |payload| && after == before + [x]
  }

  /** Once its length field has overflowed, a session never delivers the payload, although the CRC is right. */
  lemma {:induction false} OverflowRest(r: Reception, fs: seq<Frame>, payload: seq<u8>, signature: u64, tid: Tid,
                                        index: nat, toggle: bool, times: seq<Moment>, start: u64)
    requires 0 < index < |payload| && |payload| > RX_PAYLOAD_MAX && index % 7 == 5
    requires Carried(fs, payload, PayloadCrc(signature, payload), tid, index, toggle)
    requires Follows(r.session, tid, index, toggle, start) && start != 0
    requires |times| == |fs| && Timely(times, start)
    ensures Misses(r.delivered, Feed(r, fs, times, signature).delivered, payload)
    decreases |payload| - index
  {
    hide ReceiveOne, PayloadCrc, Elapsed, Feed, Carried, Carries;
    CarriedNext(fs, payload, PayloadCrc(signature, payload), tid, index, toggle);
    FeedStep(r, fs, times, signature);
    var r1 := StepFollowed(r, fs[0], payload, signature, tid, index, toggle, times[0], start);
    if index + 7 >= |payload| {
      FeedNothing(r1, times[1..], signature);
    } else if Deaf(r1.session, tid) {
      DeafRest(r1, fs[1..], payload, PayloadCrc(signature, payload), signature, tid, index + 7, !toggle, times[1..]);
    } else {
      OverflowRest(r1, fs[1..], payload, signature, tid, index + 7, !toggle, times[1..], start);
    }
  }

  /** The session follows transfer `tid`; its length field has ten bits. */
  predicate Follows(s: Session, tid: Tid, index: nat, toggle: bool, start: u64) {
    && s.iface == 0 && s.nextToggle == toggle && s.transferId == tid && s.timestamp == start
    && |s.payload| == index % PAYLOAD_LEN_LIMIT
  }

  lemma StepFollowed(r: Reception, f: Frame, payload: seq<u8>, signature: u64, tid: Tid,
                     index: nat, toggle: bool, now: Moment, start: u64) returns (r1: Reception)
    requires 0 < index < |payload| && |payload| > RX_PAYLOAD_MAX && index % 7 == 5
    requires Carries(f, payload, PayloadCrc(signature, payload), tid, index, toggle)
    requires Follows(r.session, tid, index, toggle, start) && start != 0 && Elapsed(now.time, start) <= TRANSFER_TIMEOUT
    ensures r1 == ReceiveOne(r, f, now, signature)
    ensures index + 7 >= |payload| ==> Misses(r.delivered, r1.delivered, payload)
    ensures index + 7 < |payload| ==>
      r1.delivered == r.delivered && (Deaf(r1.session, tid) || Follows(r1.session, tid, index + 7, !toggle, start))
    ensures index + 7 < |payload| && BlocksAfter(|r.session.payload|, r.session.blocks, 7) <= r.session.blocks + r.free ==>
      Follows(r1.session, tid, index + 7, !toggle, start)
  {
    hide Receive, PayloadCrc, Elapsed, Carries, Push, Finish, BlocksAfter;
    r1 := ReceiveOne(r, f, now, signature);
    ReceiveLater(r.session, f, payload, PayloadCrc(signature, payload), signature, tid, index, toggle, now, r.free);
    if index + 7 >= |payload| {
      ShortOfEnd(index, |payload|);
      FinishLength(r.session, payload[index..|payload|], r.free, now.memory);
    } else {
      PushFollows(r.session, payload[index..index + 7], r.session.calculatedCrc, r.free, now.memory, tid, index, toggle, start);
    }
  }

  lemma ShortOfEnd(index: nat, total: nat)
    requires index < total <= index + 7 && total > RX_PAYLOAD_MAX && index % 7 == 5
    ensures index % PAYLOAD_LEN_LIMIT + (total - index) < total
  {
    assert index >= 1021;
    assert index != 1021 && index != 1022 && index != 1023;
  }

  lemma FinishLength(s: Session, bytes: seq<u8>, free: nat, memory: seq<u8>)
    ensures var o := Finish(s, bytes, free, memory);
      o.delivered.Some? ==> |o.delivered.value| == |s.payload| + |bytes|
  {
    hide Regular, Prefix;
  }

  lemma PushFollows(s: Session, bytes: seq<u8>, crc: Register, free: nat, memory: seq<u8>, tid: Tid, index: nat,
                    toggle: bool, start: u64)
    requires Follows(s, tid, index, toggle, start) && |bytes| == 7
    ensures var o := Push(s, bytes, crc, free, memory);
      o.delivered == None && (Deaf(o.session, tid) || Follows(o.session, tid, index + 7, !toggle, start)) &&
      (BlocksAfter(|s.payload|, s.blocks, 7) <= s.blocks + free ==> Follows(o.session, tid, index + 7, !toggle, start))
  {
    hide Regular, Prefix, BlocksAfter;
    NextLength(index);
  }

  lemma NextLength(index: nat)
    ensures (index % PAYLOAD_LEN_LIMIT + 7) % PAYLOAD_LEN_LIMIT == (index + 7) % PAYLOAD_LEN_LIMIT
  {
  }

  /** Segmentation and reassembly undo each other. A multi-frame transfer fed in order, within two seconds, to a
      session that does not hold the first frame of an unfinished transfer is delivered exactly once, byte for byte,
      if and only if the session welcomes it, the pool has the blocks it needs, and its last frame starts within the
      ten-bit length field. A longer one is delivered, if at all, with another length. */
  lemma {:induction false} TransferReceived(r: Reception, id: Id, payload: seq<u8>, signature: u64, tid: Tid, times: seq<Moment>)
    requires FRAME_DATA_MAX <= |payload|
    requires |times| == |TransferFrames(id, payload, PayloadCrc(signature, payload), tid)|
    requires |times| > 0 && times[0].time != 0 && Timely(times, times[0].time)
    requires var first := MultiFrame(id, payload, PayloadCrc(signature, payload), tid, 0, false);
      r.session.nextToggle ==> Welcomes(r.session, first, times[0])
    ensures
      var fs := TransferFrames(id, payload, PayloadCrc(signature, payload), tid);
      Outcomes(r, fs, Feed(r, fs, times, signature), payload, tid, times[0])
  {
    var crc := PayloadCrc(signature, payload);
    var fs := MultiFrames(id, payload, crc, tid, 0, false);
    FramesCarried(id, payload, crc, tid, 0, false);
    CarriedReceived(r, fs, payload, signature, tid, times);
  }

  /** What becomes of a whole transfer. */
  ghost predicate Outcomes(r: Reception, fs: seq<Frame>, r': Reception, payload: seq<u8>, tid: Tid, first: Moment)
    requires fs != [] && FRAME_DATA_MAX <= |payload|
  {
    var opening := Welcomes(r.session, fs[0], first);
    var roomy := r.free + r.session.blocks >= BlocksFor(LastStart(|payload|));
    && (r'.delivered == r.delivered + [payload] <==> opening && roomy && |payload| <= RX_PAYLOAD_MAX)
    && (r'.delivered == r.delivered + [payload] ==>
          Idle(r'.session, tid, first.time) && r'.free == r.free + r.session.blocks)
    && (!opening || (!roomy && |payload| <= RX_PAYLOAD_MAX) ==> r'.delivered == r.delivered)
    && (|payload| > RX_PAYLOAD_MAX ==> Misses(r.delivered, r'.delivered, payload))
  }

  lemma {:induction false} CarriedReceived(r: Reception, fs: seq<Frame>, payload: seq<u8>, signature: u64, tid: Tid, times: seq<Moment>)
    requires FRAME_DATA_MAX <= |payload|
    requires Carried(fs, payload, PayloadCrc(signature, payload), tid, 0, false)
    requires |times| == |fs| > 0 && times[0].time != 0 && Timely(times, times[0].time)
    requires r.session.nextToggle ==> Welcomes(r.session, fs[0], times[0])
    ensures Outcomes(r, fs, Feed(r, fs, times, signature), payload, tid, times[0])
  {
    OpensFirst(r.session, fs[0], payload, PayloadCrc(signature, payload), tid, times[0]);
    hide PayloadCrc, Elapsed, Receive, NeedRestart, BlocksFor, ReceiveOne, Feed, Carries, Welcomes;
    var crc := PayloadCrc(signature, payload);
    var r1 := ReceiveOne(r, fs[0], times[0], signature);
    FeedStep(r, fs, times, signature);
    if Opens(r.session, fs[0], times[0]) {
      r1 := OpenedOne(r, fs[0], payload, signature, tid, times[0]);
      OpenedRest(r1, fs[1..], payload, signature, tid, times[1..], r.session.descriptor, times[0].time);
    } else {
      UnopenedOne(r, fs[0], payload, crc, signature, tid, times[0]);
      DeafRest(r1, fs[1..], payload, crc, signature, tid, 5, true, times[1..]);
    }
    MissesNot(r.delivered, Feed(r, fs, times, signature).delivered, payload);
  }

  lemma OpensFirst(s: Session, f: Frame, payload: seq<u8>, crc: Register, tid: Tid, now: Moment)
    requires payload != [] && Carries(f, payload, crc, tid, 0, false)
    ensures Opens(s, f, now) <==> Welcomes(s, f, now)
  {
    hide Opens, Welcomes;
    OpensExactly(s, f, now);
  }

  lemma MissesNot(before: seq<seq<u8>>, after: seq<seq<u8>>, payload: seq<u8>)
    ensures Misses(before, after, payload) ==> after != before + [payload]
    ensures before != before + [payload]
  {
    assert |before + [payload]| == |before| + 1;
    if x: seq<u8> :| |x| != |payload| && after == before + [x] {
      assert after[|before|] == x && (before + [payload])[|before|] == payload;
    }
  }

  lemma OpenedOne(r: Reception, f: Frame, payload: seq<u8>, signature: u64, tid: Tid, now: Moment) returns (r1: Reception)
    requires FRAME_DATA_MAX <= |payload| && now.time != 0
    requires Carries(f, payload, PayloadCrc(signature, payload), tid, 0, false) && Opens(r.session, f, now)
    ensures r1 == ReceiveOne(r, f, now, signature)
    ensures r1.delivered == r.delivered && r1.free == r.free + r.session.blocks
    ensures r1.session == Collecting(r.session.descriptor, now.time, payload, signature, tid, 5, true)
  {
    hide Receive, PayloadCrc, Elapsed, Opens, Collecting, Carries;
    r1 := ReceiveOne(r, f, now, signature);
    ReceiveFirst(r.session, f, payload, signature, tid, now, r.free);
  }

  lemma UnopenedOne(r: Reception, f: Frame, payload: seq<u8>, crc: Register, signature: u64, tid: Tid, now: Moment)
    requires FRAME_DATA_MAX <= |payload| && Carries(f, payload, crc, tid, 0, false)
    requires !Opens(r.session, f, now) && !r.session.nextToggle
    ensures ReceiveOne(r, f, now, signature).delivered == r.delivered
    ensures Deaf(ReceiveOne(r, f, now, signature).session, tid)
  {
    assert Receive(r.session, f, now, signature, r.free) == Accept(r.session, f, now, signature, r.free);
  }

  /** After its first frame. */
  lemma OpenedRest(r: Reception, fs: seq<Frame>, payload: seq<u8>, signature: u64, tid: Tid, times: seq<Moment>,
                   d: nat, start: u64)
    requires FRAME_DATA_MAX <= |payload| && start != 0 && |times| == |fs| && Timely(times, start)
    requires r.session == Collecting(d, start, payload, signature, tid, 5, true)
    requires Carried(fs, payload, PayloadCrc(signature, payload), tid, 5, true)
    ensures
      var r' := Feed(r, fs, times, signature);
      if |payload| > RX_PAYLOAD_MAX then Misses(r.delivered, r'.delivered, payload)
      else if r.free >= BlocksFor(LastStart(|payload|)) then
        r'.delivered == r.delivered + [payload] && Idle(r'.session, tid, start) && r'.free == r.free
      else r'.delivered == r.delivered
  {
    hide PayloadCrc, Elapsed, Feed, Carried;
    var more := (|payload| - 6) / 7;
    assert r.session.blocks == 0;
    if |payload| > RX_PAYLOAD_MAX {
      OverflowRest(r, fs, payload, signature, tid, 5, true, times, start);
    } else if r.free >= BlocksFor(LastStart(|payload|)) {
      CollectRest(r, fs, payload, signature, tid, 5, true, times, more, d, start);
    } else {
      assert BlocksFor(5) == 0;
      StarvedRest(r, fs, payload, signature, tid, 5, true, times, more, d, start);
    }
  }

  /** For instance, 1028 bytes sent to a waiting session with plenty of blocks are delivered as four bytes. */
  lemma {:induction false} OverflowDelivers(r: Reception, id: Id, payload: seq<u8>, signature: u64, tid: Tid, times: seq<Moment>)
    requires |payload| == RX_PAYLOAD_MAX + 1 && Ready(r.session, tid) && r.free >= 37
    requires Arrives(Sent(id, payload, times), signature, tid)
    ensures
      var r' := Feed(r, TransferFrames(id, payload, PayloadCrc(signature, payload), tid), times, signature);
      exists x: seq<u8> :: |x| == 4 && r'.delivered == r.delivered + [x]
  {
    hide PayloadCrc, Elapsed, Feed, Carries, Opens, ReceiveOne;
    var crc := PayloadCrc(signature, payload);
    var fs := MultiFrames(id, payload, crc, tid, 0, false);
    FramesCarried(id, payload, crc, tid, 0, false);
    ReadyWelcomes(r.session, fs[0], tid, times[0]);
    var r1 := OpenedOne(r, fs[0], payload, signature, tid, times[0]);
    FeedStep(r, fs, times, signature);
    CollectOverflow(r1, fs[1..], payload, signature, tid, 5, true, times[1..], 145, r.session.descriptor, times[0].time);
  }

  lemma ReadyWelcomes(s: Session, f: Frame, tid: Tid, now: Moment)
    requires Ready(s, tid) && f.iface == 0 && IsStart(Tail(f)) && TransferId(Tail(f)) == tid
    ensures Opens(s, f, now) && Welcomes(s, f, now)
  {
    hide Opens;
    OpensExactly(s, f, now);
  }

  lemma {:induction false} CollectOverflow(r: Reception, fs: seq<Frame>, payload: seq<u8>, signature: u64, tid: Tid,
                                           index: nat, toggle: bool, times: seq<Moment>, more: nat, d: nat, start: u64)
    requires HEAD_SIZE <= index && index + 7 * more == 1020 && |payload| == RX_PAYLOAD_MAX + 1
    requires Carried(fs, payload, PayloadCrc(signature, payload), tid, index, toggle)
    requires r.session == Collecting(d, start, payload, signature, tid, index, toggle) && start != 0
    requires |times| == |fs| && Timely(times, start) && r.free + r.session.blocks >= 37
    ensures exists x: seq<u8> :: |x| == 4 && Feed(r, fs, times, signature).delivered == r.delivered + [x]
    decreases more
  {
    hide ReceiveOne, PayloadCrc, Elapsed, BlocksFor, Feed, Carried, Carries;
    CarriedNext(fs, payload, PayloadCrc(signature, payload), tid, index, toggle);
    FeedStep(r, fs, times, signature);
    if more > 0 {
      var r1 := StepMiddle(r, fs[0], payload, signature, tid, index, toggle, times[0], d, start);
      BlocksMonotone(index + 7, 1020);
      BlocksAtEnd();
      CollectOverflow(r1, fs[1..], payload, signature, tid, index + 7, !toggle, times[1..], more - 1, d, start);
    } else {
      var r1 := StepOverflow(r, fs[0], payload, signature, tid, toggle, times[0], d, start);
      CarriedNext(fs[1..], payload, PayloadCrc(signature, payload), tid, 1027, !toggle);
      FeedStep(r1, fs[1..], times[1..], signature);
      var r2 := StepAfterOverflow(r1, fs[1], payload, signature, tid, !toggle, times[1], start);
      FeedNothing(r2, times[2..], signature);
      assert fs[1..][1..] == [] && times[1..][1..] == times[2..];
    }
  }

  lemma BlocksAtEnd()
    ensures BlocksFor(1020) == 37 && BlocksAfter(1020, 37, 7) == 37
  {
  }

  lemma StepOverflow(r: Reception, f: Frame, payload: seq<u8>, signature: u64, tid: Tid, toggle: bool, now: Moment,
                     d: nat, start: u64) returns (r1: Reception)
    requires |payload| == RX_PAYLOAD_MAX + 1 && start != 0 && Elapsed(now.time, start) <= TRANSFER_TIMEOUT
    requires Carries(f, payload, PayloadCrc(signature, payload), tid, 1020, toggle)
    requires r.session == Collecting(d, start, payload, signature, tid, 1020, toggle)
    ensures r1 == ReceiveOne(r, f, now, signature) && r1.delivered == r.delivered
    ensures Follows(r1.session, tid, 1027, !toggle, start) && r1.session.payloadCrc == PayloadCrc(signature, payload)
    ensures r1.session.calculatedCrc == PayloadCrc(signature, payload[..1027])
  {
    hide Receive, PayloadCrc, Elapsed, Regular, BlocksAfter, BlocksFor, Prefix;
    r1 := ReceiveOne(r, f, now, signature);
    ReceiveLater(r.session, f, payload, PayloadCrc(signature, payload), signature, tid, 1020, toggle, now, r.free);
    BlocksAtEnd();
    CrcExtends(signature, payload, 1020, 1027);
  }

  lemma StepAfterOverflow(r: Reception, f: Frame, payload: seq<u8>, signature: u64, tid: Tid, toggle: bool, now: Moment,
                          start: u64) returns (r1: Reception)
    requires |payload| == RX_PAYLOAD_MAX + 1 && start != 0 && Elapsed(now.time, start) <= TRANSFER_TIMEOUT
    requires Carries(f, payload, PayloadCrc(signature, payload), tid, 1027, toggle)
    requires Follows(r.session, tid, 1027, toggle, start) && r.session.payloadCrc == PayloadCrc(signature, payload)
    requires r.session.calculatedCrc == PayloadCrc(signature, payload[..1027])
    ensures r1 == ReceiveOne(r, f, now, signature)
    ensures exists x: seq<u8> :: |x| == 4 && r1.delivered == r.delivered + [x]
  {
    hide Receive, PayloadCrc, Elapsed, Regular, Prefix;
    r1 := ReceiveOne(r, f, now, signature);
    ReceiveLater(r.session, f, payload, PayloadCrc(signature, payload), signature, tid, 1027, toggle, now, r.free);
    CrcExtends(signature, payload, 1027, 1028);
    assert payload[..1028] == payload;
    var o := Finish(r.session, payload[1027..1028], r.free, now.memory);
    assert |o.delivered.value| == 4;
  }

  // ---------- Streams of transfers ----------

  /** A transfer's CAN ID, its payload, and the arrival times of its frames. */
  datatype Sent = Sent(id: Id, payload: seq<u8>, times: seq<Moment>)

  ghost predicate Arrives(x: Sent, signature: u64, tid: Tid) {
    && |x.times| == |TransferFrames(x.id, x.payload, PayloadCrc(signature, x.payload), tid)|
    && |x.times| > 0 && x.times[0].time != 0 && Timely(x.times, x.times[0].time)
  }

  ghost predicate AllArrive(xs: seq<Sent>, signature: u64, tid: Tid)
    decreases xs
  {
    xs == [] || (Arrives(xs[0], signature, tid) && AllArrive(xs[1..], signature, NextTid(tid)))
  }

  function Payloads(xs: seq<Sent>): seq<seq<u8>> {
    if xs == [] then [] else [xs[0].payload] + Payloads(xs[1..])
  }

  /** Chunks a transfer occupies at its largest. */
  function Demand(payload: seq<u8>): nat {
    if |payload| < FRAME_DATA_MAX then 0 else BlocksFor(LastStart(|payload|))
  }

  /** Consecutive transfers of one sender and data type, each with the next transfer ID and any priority. */
  function FeedAll(r: Reception, xs: seq<Sent>, signature: u64, tid: Tid): Reception
    requires AllArrive(xs, signature, tid)
    decreases xs
  {
    if xs == [] then r
    else
      var fs := TransferFrames(xs[0].id, xs[0].payload, PayloadCrc(signature, xs[0].payload), tid);
      FeedAll(Feed(r, fs, xs[0].times, signature), xs[1..], signature, NextTid(tid))
  }

  /** A session that never received anything, or rests between transfers and awaits `tid`. */
  predicate Awaits(s: Session, tid: Tid) {
    && s.payload == [] && s.blocks == 0 && !s.nextToggle && s.iface == 0
    && (s.transferId == tid || s.timestamp == 0)
  }

  /** A session that never received anything, or rests after a transfer other than `tid`. */
  predicate Ready(s: Session, tid: Tid) {
    && s.payload == [] && s.blocks == 0 && !s.nextToggle && s.iface == 0
    && (s.timestamp == 0 || s.transferId != NextTid(tid))
  }

  lemma SingleReceived(r: Reception, id: Id, payload: seq<u8>, signature: u64, tid: Tid, now: Moment)
    requires |payload| < FRAME_DATA_MAX && now.time != 0 && Ready(r.session, tid)
    ensures
      var r' := Feed(r, [SingleFrame(id, payload, tid)], [now], signature);
      r'.delivered == r.delivered + [payload] && r'.free == r.free && Rests(r'.session, tid)
  {
    var f := SingleFrame(id, payload, tid);
    TailByteFields(START + END, false, tid);
    assert Tail(f) == TailByte(START + END, false, tid) && Body(f) == payload;
    ReadyWelcomes(r.session, f, tid, now);
    var s := if NeedRestart(r.session, f, now) then Restarted(r.session, f) else r.session;
    assert s.transferId == tid;
    assert Receive(r.session, f, now, signature, r.free) == Accept(s, f, now, signature, r.free);
    FeedStep(r, [f], [now], signature);
  }

  /** After transfer `tid`. */
  predicate Rests(s: Session, tid: Tid) {
    s.payload == [] && s.blocks == 0 && !s.nextToggle && s.iface == 0 && s.transferId == NextTid(tid)
  }

  lemma RestsAwaits(s: Session, tid: Tid)
    requires Rests(s, tid)
    ensures Awaits(s, NextTid(tid))
    ensures forall next: Tid :: next != tid ==> Ready(s, next)
  {
  }

  lemma AwaitsReady(s: Session, tid: Tid)
    requires Awaits(s, tid)
    ensures Ready(s, tid)
  {
  }

  lemma OneReceived(r: Reception, x: Sent, signature: u64, tid: Tid)
    requires Ready(r.session, tid) && Arrives(x, signature, tid)
    requires r.free >= Demand(x.payload)
    ensures
      var r' := Feed(r, TransferFrames(x.id, x.payload, PayloadCrc(signature, x.payload), tid), x.times, signature);
      if |x.payload| <= RX_PAYLOAD_MAX then
        r'.delivered == r.delivered + [x.payload] && r'.free == r.free && Rests(r'.session, tid)
      else Misses(r.delivered, r'.delivered, x.payload)
  {
    hide PayloadCrc, MultiFrames, Misses, BlocksFor, NeedRestart, Feed;
    if |x.payload| < FRAME_DATA_MAX {
      assert x.times == [x.times[0]];
      SingleReceived(r, x.id, x.payload, signature, tid, x.times[0]);
    } else {
      var crc := PayloadCrc(signature, x.payload);
      TransferReceived(r, x.id, x.payload, signature, tid, x.times);
      MultiFramesFrom(x.id, x.payload, crc, tid, 0, false);
      FrameCarries(x.id, x.payload, crc, tid, 0, false);
      ReadyWelcomes(r.session, MultiFrame(x.id, x.payload, crc, tid, 0, false), tid, x.times[0]);
    }
  }

  lemma Associative(a: seq<seq<u8>>, b: seq<seq<u8>>, c: seq<seq<u8>>)
    ensures a + (b + c) == (a + b) + c
  {
  }

  /** A transfer delivers at most one payload, whatever the session holds, and takes none back. */
  ghost predicate AddsOne(before: seq<seq<u8>>, after: seq<seq<u8>>) { before <= after && |after| <= |before| + 1 }

  lemma {:induction false} CarriedAddsOne(r: Reception, fs: seq<Frame>, payload: seq<u8>, crc: Register, signature: u64,
                                          tid: Tid, index: nat, toggle: bool, times: seq<Moment>)
    requires index <= |payload| && Carried(fs, payload, crc, tid, index, toggle) && |times| == |fs|
    ensures AddsOne(r.delivered, Feed(r, fs, times, signature).delivered)
    ensures index == |payload| ==> Feed(r, fs, times, signature) == r
    decreases |payload| - index
  {
    hide Receive;
    if index < |payload| {
      var next := index + FrameShare(|payload|, index);
      FeedStep(r, fs, times, signature);
      OnlyEndDelivers(r.session, fs[0], times[0], signature, r.free);
      CarriedAddsOne(ReceiveOne(r, fs[0], times[0], signature), fs[1..], payload, crc, signature, tid, next, !toggle, times[1..]);
    }
  }

  lemma OnlyEndDelivers(s: Session, f: Frame, now: Moment, signature: u64, free: nat)
    ensures !IsEnd(Tail(f)) ==> Receive(s, f, now, signature, free).delivered == None
  {
    hide NeedRestart, BlocksAfter, Regular;
  }

  lemma {:induction false} FeedAllAdds(r: Reception, xs: seq<Sent>, signature: u64, tid: Tid)
    requires AllArrive(xs, signature, tid)
    ensures r.delivered <= FeedAll(r, xs, signature, tid).delivered
    ensures |FeedAll(r, xs, signature, tid).delivered| <= |r.delivered| + |xs|
    decreases xs
  {
    if xs != [] {
      hide Arrives, Feed, MultiFrames, PayloadCrc, NextTid, Receive;
      var x, crc := xs[0], PayloadCrc(signature, xs[0].payload);
      var fs := TransferFrames(x.id, x.payload, crc, tid);
      var r1 := Feed(r, fs, x.times, signature);
      OneAdds(r, x, signature, tid);
      FeedAllAdds(r1, xs[1..], signature, NextTid(tid));
    }
  }

  lemma OneAdds(r: Reception, x: Sent, signature: u64, tid: Tid)
    requires Arrives(x, signature, tid)
    ensures AddsOne(r.delivered, Feed(r, TransferFrames(x.id, x.payload, PayloadCrc(signature, x.payload), tid), x.times, signature).delivered)
  {
    hide PayloadCrc, Receive;
    if |x.payload| < FRAME_DATA_MAX {
      FeedStep(r, [SingleFrame(x.id, x.payload, tid)], x.times, signature);
    } else {
      FramesCarried(x.id, x.payload, PayloadCrc(signature, x.payload), tid, 0, false);
      CarriedAddsOne(r, MultiFrames(x.id, x.payload, PayloadCrc(signature, x.payload), tid, 0, false), x.payload,
                     PayloadCrc(signature, x.payload), signature, tid, 0, false, x.times);
    }
  }

  ghost predicate AllFit(xs: seq<Sent>) { forall i :: 0 <= i < |xs| ==> |xs[i].payload| <= RX_PAYLOAD_MAX }

  /** A stream of consecutive transfers arrives as exactly the payloads sent, in order, if and only if none of them
      is longer than a session can count. */
  lemma {:induction false} StreamReceived(r: Reception, xs: seq<Sent>, signature: u64, tid: Tid)
    requires Awaits(r.session, tid) && AllArrive(xs, signature, tid)
    requires forall x :: x in xs ==> r.free >= Demand(x.payload)
    ensures FeedAll(r, xs, signature, tid).delivered == r.delivered + Payloads(xs) <==> AllFit(xs)
    ensures AllFit(xs) ==> FeedAll(r, xs, signature, tid).free == r.free
    decreases xs
  {
    if xs != [] {
      hide Awaits, Rests, Ready, Demand, Arrives, Feed, TransferFrames, PayloadCrc, NextTid, Misses;
      var fs := TransferFrames(xs[0].id, xs[0].payload, PayloadCrc(signature, xs[0].payload), tid);
      AwaitsReady(r.session, tid);
      OneReceived(r, xs[0], signature, tid);
      var r1 := Feed(r, fs, xs[0].times, signature);
      if |xs[0].payload| <= RX_PAYLOAD_MAX {
        RestsAwaits(r1.session, tid);
        StreamReceived(r1, xs[1..], signature, NextTid(tid));
        Associative(r.delivered, [xs[0].payload], Payloads(xs[1..]));
        assert AllFit(xs) <==> AllFit(xs[1..]) by { FitsFrom(xs); }
      } else {
        FeedAllAdds(r1, xs[1..], signature, NextTid(tid));
        PayloadsCount(xs);
        TooFew(r.delivered, r1.delivered, FeedAll(r1, xs[1..], signature, NextTid(tid)).delivered, Payloads(xs));
      }
    }
  }

  lemma FitsFrom(xs: seq<Sent>)
    requires xs != [] && |xs[0].payload| <= RX_PAYLOAD_MAX
    ensures AllFit(xs) <==> AllFit(xs[1..])
  {
    if AllFit(xs[1..]) {
      forall i | 0 <= i < |xs| ensures |xs[i].payload| <= RX_PAYLOAD_MAX {
        assert i > 0 ==> xs[i] == xs[1..][i - 1];
      }
    }
  }

  lemma {:induction false} PayloadsCount(xs: seq<Sent>)
    ensures |Payloads(xs)| == |xs|
    ensures xs != [] ==> Payloads(xs)[0] == xs[0].payload
    decreases xs
  {
    if xs != [] {
      PayloadsCount(xs[1..]);
    }
  }

  /** A list that misses its first element and adds at most one for each of the others is not the whole. */
  lemma TooFew(before: seq<seq<u8>>, then': seq<seq<u8>>, after: seq<seq<u8>>, all: seq<seq<u8>>)
    requires all != [] && Misses(before, then', all[0]) && then' <= after && |after| <= |then'| + |all| - 1
    ensures after != before + all
  {
    if then' != before {
      var x: seq<u8> :| |x| != |all[0]| && then' == before + [x];
      assert after[|before|] == then'[|before|] == x;
      assert (before + all)[|before|] == all[0];
    }
  }

  /** Transfers of one sender as they reach the receiver: some may have been lost on the way, so their IDs skip. */
  datatype Survivor = Survivor(sent: Sent, tid: Tid)

  ghost predicate AllSurvive(ys: seq<Survivor>, signature: u64) {
    && (forall i :: 0 <= i < |ys| ==> Arrives(ys[i].sent, signature, ys[i].tid))
    && (forall i :: 0 < i < |ys| ==> ys[i].tid != ys[i - 1].tid)
  }

  function FeedSurvivors(r: Reception, ys: seq<Survivor>, signature: u64): Reception
    requires forall i :: 0 <= i < |ys| ==> Arrives(ys[i].sent, signature, ys[i].tid)
    decreases ys
  {
    if ys == [] then r
    else
      var x := ys[0].sent;
      assert Arrives(x, signature, ys[0].tid);
      var fs := TransferFrames(x.id, x.payload, PayloadCrc(signature, x.payload), ys[0].tid);
      FeedSurvivors(Feed(r, fs, x.times, signature), ys[1..], signature)
  }

  function SurvivorPayloads(ys: seq<Survivor>): seq<seq<u8>> {
    if ys == [] then [] else [ys[0].sent.payload] + SurvivorPayloads(ys[1..])
  }

  /** Losing whole transfers costs nothing else: all that arrive are delivered, in order, as long as fewer than thirty-one
      are lost in a row, so that consecutive arrivals have different transfer IDs. */
  lemma {:induction false} LossesCostNothingElse(r: Reception, ys: seq<Survivor>, signature: u64)
    requires AllSurvive(ys, signature) && (ys != [] ==> Ready(r.session, ys[0].tid))
    requires forall i :: 0 <= i < |ys| ==> |ys[i].sent.payload| <= RX_PAYLOAD_MAX && r.free >= Demand(ys[i].sent.payload)
    ensures FeedSurvivors(r, ys, signature).delivered == r.delivered + SurvivorPayloads(ys)
    ensures FeedSurvivors(r, ys, signature).free == r.free
    decreases ys
  {
    if ys != [] {
      hide Rests, Ready, Demand, Arrives, Feed, TransferFrames, PayloadCrc, NextTid, Misses;
      var x := ys[0].sent;
      var fs := TransferFrames(x.id, x.payload, PayloadCrc(signature, x.payload), ys[0].tid);
      OneReceived(r, x, signature, ys[0].tid);
      var r1 := Feed(r, fs, x.times, signature);
      RestsAwaits(r1.session, ys[0].tid);
      LossesCostNothingElse(r1, ys[1..], signature);
      Associative(r.delivered, [x.payload], SurvivorPayloads(ys[1..]));
    }
  }

  /** A repeated transfer, already completed and seen again before the session times out, is ignored. */
  lemma {:induction false} RepeatIgnored(r: Reception, id: Id, payload: seq<u8>, signature: u64, tid: Tid, times: seq<Moment>)
    requires FRAME_DATA_MAX <= |payload| && Arrives(Sent(id, payload, times), signature, tid)
    requires Idle(r.session, tid, r.session.timestamp) && r.session.timestamp != 0
    requires Elapsed(times[0].time, r.session.timestamp) <= TRANSFER_TIMEOUT
    ensures Feed(r, TransferFrames(id, payload, PayloadCrc(signature, payload), tid), times, signature).delivered
            == r.delivered
  {
    hide Feed, PayloadCrc, NeedRestart;
    var crc := PayloadCrc(signature, payload);
    var first := MultiFrame(id, payload, crc, tid, 0, false);
    FrameCarries(id, payload, crc, tid, 0, false);
    RepeatNotOpening(r.session, first, tid, times[0]);
    TransferReceived(r, id, payload, signature, tid, times);
  }

  lemma RepeatNotOpening(s: Session, f: Frame, tid: Tid, now: Moment)
    requires Idle(s, tid, s.timestamp) && s.timestamp != 0 && Elapsed(now.time, s.timestamp) <= TRANSFER_TIMEOUT
    requires f.iface == 0 && TransferId(Tail(f)) == tid
    ensures !NeedRestart(s, f, now) && !Welcomes(s, f, now)
  {
    assert ForwardDistance(NextTid(tid), tid) == 1 && ForwardDistance(tid, NextTid(tid)) == 31;
  }

  /** A sender that starts its transfer over after the first frame still gets it through exactly once: within the
      interface delay the repeated first frame is ignored, after it the session starts over, too. */
  lemma {:induction false} StartedOver(r: Reception, id: Id, payload: seq<u8>, signature: u64, tid: Tid, times: seq<Moment>, d: nat, start: u64)
    requires FRAME_DATA_MAX <= |payload|
    requires r.session == Collecting(d, start, payload, signature, tid, 5, true) && start != 0
    requires |times| == |TransferFrames(id, payload, PayloadCrc(signature, payload), tid)|
    requires |times| > 0 && times[0].time != 0 && Timely(times, times[0].time) && Timely(times, start)
    requires r.free >= BlocksFor(LastStart(|payload|))
    ensures
      var r' := Feed(r, TransferFrames(id, payload, PayloadCrc(signature, payload), tid), times, signature);
      r'.delivered == r.delivered + [payload] <==> |payload| <= RX_PAYLOAD_MAX
  {
    hide PayloadCrc, Elapsed, Feed, Carries, Opens, NeedRestart, BlocksFor;
    var crc := PayloadCrc(signature, payload);
    var fs := MultiFrames(id, payload, crc, tid, 0, false);
    FramesCarried(id, payload, crc, tid, 0, false);
    FeedStep(r, fs, times, signature);
    if NeedRestart(r.session, fs[0], times[0]) {
      RestartOpens(r.session, fs[0], times[0]);
      assert BlocksFor(5) == 0 by { NoBlocksYet(); }
      var r1 := OpenedOne(r, fs[0], payload, signature, tid, times[0]);
      OpenedRest(r1, fs[1..], payload, signature, tid, times[1..], d, times[0].time);
    } else {
      FirstIgnored(r, fs[0], payload, crc, signature, tid, times[0]);
      OpenedRest(r, fs[1..], payload, signature, tid, times[1..], d, start);
    }
    MissesNot(r.delivered, Feed(r, fs, times, signature).delivered, payload);
  }

  lemma NoBlocksYet()
    ensures BlocksFor(5) == 0
  {
  }

  lemma RestartOpens(s: Session, f: Frame, now: Moment)
    requires NeedRestart(s, f, now)
    ensures Opens(s, f, now)
  {
  }

  lemma FirstIgnored(r: Reception, f: Frame, payload: seq<u8>, crc: Register, signature: u64, tid: Tid, now: Moment)
    requires FRAME_DATA_MAX <= |payload| && Carries(f, payload, crc, tid, 0, false)
    requires r.session.nextToggle && !NeedRestart(r.session, f, now)
    ensures ReceiveOne(r, f, now, signature) == r
  {
    hide NeedRestart;
  }

  // ---------- A transfer that meets the beginning of another one ----------

  /** The remaining case: the session holds the first frame of another transfer, and no restart is due. The first
      frame of the new transfer is ignored. With another ID the new transfer is lost. With the same ID its rest is
      taken for the rest of the old one, and the mixture is delivered exactly when it has the old transfer's CRC. */
  lemma {:induction false} MixedUp(r: Reception, id: Id, payload: seq<u8>, signature: u64, tid: Tid, times: seq<Moment>)
    requires FRAME_DATA_MAX <= |payload|
    requires |times| == |TransferFrames(id, payload, PayloadCrc(signature, payload), tid)| > 0
    requires r.session.timestamp != 0 && Timely(times, r.session.timestamp)
    requires var first := MultiFrame(id, payload, PayloadCrc(signature, payload), tid, 0, false);
      r.session.nextToggle && !Welcomes(r.session, first, times[0])
    ensures
      var s := r.session;
      var r' := Feed(r, TransferFrames(id, payload, PayloadCrc(signature, payload), tid), times, signature);
      && (s.iface != 0 || s.transferId != tid ==> r'.delivered == r.delivered)
      && (s.iface == 0 && s.transferId == tid && |s.payload| == 5 && |payload| <= RX_PAYLOAD_MAX &&
          r.free >= BlocksFor(LastStart(|payload|)) ==>
            r'.delivered == r.delivered +
              if Crc(s.calculatedCrc, payload[5..]) == s.payloadCrc then [s.payload + payload[5..]] else [])
  {
    hide PayloadCrc, Elapsed, Feed, Carries, BlocksFor, Welcomes, NeedRestart;
    var crc := PayloadCrc(signature, payload);
    var fs := MultiFrames(id, payload, crc, tid, 0, false);
    FramesCarried(id, payload, crc, tid, 0, false);
    FeedStep(r, fs, times, signature);
    OpensFirst(r.session, fs[0], payload, crc, tid, times[0]);
    HeldNoChunk(r.session, fs[0], payload, crc, tid, times[0]);
    FirstIgnored(r, fs[0], payload, crc, signature, tid, times[0]);
    if r.session.iface != 0 || r.session.transferId != tid {
      DeafRest(r, fs[1..], payload, crc, signature, tid, 5, true, times[1..]);
    } else if |r.session.payload| == 5 && |payload| <= RX_PAYLOAD_MAX && r.free >= BlocksFor(LastStart(|payload|)) {
      NoBlocksYet();
      MixRest(r, fs[1..], payload, crc, signature, tid, 5, true, times[1..], (|payload| - 6) / 7);
    }
  }

  lemma HeldNoChunk(s: Session, f: Frame, payload: seq<u8>, crc: Register, tid: Tid, now: Moment)
    requires FRAME_DATA_MAX <= |payload| && Carries(f, payload, crc, tid, 0, false) && !NeedRestart(s, f, now)
    ensures s.iface == 0 ==> s.blocks == 0
  {
  }

  lemma {:induction false} MixRest(r: Reception, fs: seq<Frame>, payload: seq<u8>, crc: Register, signature: u64, tid: Tid,
                                   index: nat, toggle: bool, times: seq<Moment>, more: nat)
    requires HEAD_SIZE <= index && index + 7 * more < |payload| <= index + 7 * more + 7
    requires index + 7 * more < PAYLOAD_LEN_LIMIT
    requires Carried(fs, payload, crc, tid, index, toggle) && |times| == |fs|
    requires r.session.timestamp != 0 && Timely(times, r.session.timestamp)
    requires Follows(r.session, tid, index, toggle, r.session.timestamp) && r.session.blocks == BlocksFor(index)
    requires r.free + r.session.blocks >= BlocksFor(index + 7 * more)
    ensures Feed(r, fs, times, signature).delivered == r.delivered +
              if Crc(r.session.calculatedCrc, payload[index..]) == r.session.payloadCrc
              then [r.session.payload + payload[index..]] else []
    decreases more
  {
    hide ReceiveOne, Elapsed, BlocksFor, Feed, Carried, Carries, Crc;
    CarriedNext(fs, payload, crc, tid, index, toggle);
    FeedStep(r, fs, times, signature);
    var s := r.session;
    if more == 0 {
      var r1 := MixLast(r, fs[0], payload, crc, signature, tid, index, toggle, times[0]);
      FeedNothing(r1, times[1..], signature);
    } else {
      var next := index + 7;
      BlocksMonotone(next, index + 7 * more);
      var r1 := MixMiddle(r, fs[0], payload, crc, signature, tid, index, toggle, times[0]);
      MixRest(r1, fs[1..], payload, crc, signature, tid, next, !toggle, times[1..], more - 1);
      assert payload[index..next] + payload[next..] == payload[index..];
      CrcConcat(s.calculatedCrc, payload[index..next], payload[next..]);
      assert (s.payload + payload[index..next]) + payload[next..] == s.payload + payload[index..];
    }
  }

  lemma MixLast(r: Reception, f: Frame, payload: seq<u8>, crc: Register, signature: u64, tid: Tid,
                index: nat, toggle: bool, now: Moment) returns (r1: Reception)
    requires HEAD_SIZE <= index < |payload| <= index + 7 && index < PAYLOAD_LEN_LIMIT
    requires Carries(f, payload, crc, tid, index, toggle) && r.session.timestamp != 0
    requires Follows(r.session, tid, index, toggle, r.session.timestamp) && r.session.blocks == BlocksFor(index)
    requires Elapsed(now.time, r.session.timestamp) <= TRANSFER_TIMEOUT
    ensures r1 == ReceiveOne(r, f, now, signature)
    ensures r1.delivered == r.delivered +
              if Crc(r.session.calculatedCrc, payload[index..]) == r.session.payloadCrc
              then [r.session.payload + payload[index..]] else []
  {
    hide Receive, Elapsed, Carries, Crc, Regular, BlocksFor, Prefix, Push;
    CountedRegular(r.session, index);
    r1 := ReceiveOne(r, f, now, signature);
    ReceiveLater(r.session, f, payload, crc, signature, tid, index, toggle, now, r.free);
    assert payload[index..|payload|] == payload[index..];
    assert r.delivered + [] == r.delivered;
  }

  lemma MixMiddle(r: Reception, f: Frame, payload: seq<u8>, crc: Register, signature: u64, tid: Tid,
                  index: nat, toggle: bool, now: Moment) returns (r1: Reception)
    requires HEAD_SIZE <= index && index + 7 < |payload| && index + 7 < PAYLOAD_LEN_LIMIT
    requires Carries(f, payload, crc, tid, index, toggle) && r.session.timestamp != 0
    requires Follows(r.session, tid, index, toggle, r.session.timestamp) && r.session.blocks == BlocksFor(index)
    requires Elapsed(now.time, r.session.timestamp) <= TRANSFER_TIMEOUT
    requires r.free + r.session.blocks >= BlocksFor(index + 7)
    ensures r1 == ReceiveOne(r, f, now, signature) && r1.delivered == r.delivered
    ensures r1.session == r.session.(payload := r.session.payload + payload[index..index + 7], blocks := BlocksFor(index + 7),
      calculatedCrc := Crc(r.session.calculatedCrc, payload[index..index + 7]), nextToggle := !toggle)
    ensures r1.free + r1.session.blocks == r.free + r.session.blocks
  {
    hide Receive, Elapsed, Carries, Crc, BlocksAfter, Prefix, Push, Regular, BlocksFor;
    r1 := ReceiveOne(r, f, now, signature);
    ReceiveLater(r.session, f, payload, crc, signature, tid, index, toggle, now, r.free);
    BlocksGrow(index, 7);
    CountedRegular(r.session, index);
    PushWithin(r.session, payload[index..index + 7], r.session.calculatedCrc, r.free, now.memory);
  }
}
