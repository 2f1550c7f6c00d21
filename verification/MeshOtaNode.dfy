/** The receiving side of a mesh firmware transfer (components/airlink_mesh/airlink_mesh.c): windows of 32
    chunks, a bitmap of what arrived, and the stream the finished windows are written to. */
module MeshOtaNode {
  import opened Bits
  import opened OtaStream

  const CHUNK := 1024
  const WINDOW := 32

  type Session = u32
  type Bitmap = s: seq<bool> | |s| == WINDOW witness seq(WINDOW, _ => false)

  datatype State = IdleState | Ready | Receiving | Verified | Activating | Error

  /** What a node reports; the progress percentage is left out. */
  datatype Ack = Ack(session: Session, base: nat, bitmap: Bitmap, state: State)

  function Nothing(): Bitmap { seq(WINDOW, _ => false) }

  /** Bits of the chunks that exist in the window starting at `base`. */
  function Expected(base: nat, total: nat): Bitmap {
    seq(WINDOW, k => base + k < total)
  }

  function Chunks(size: nat): nat { (size + CHUNK - 1) / CHUNK }

  /** Number of chunks in the window starting at `base`. */
  function WindowCount(base: nat, total: nat): nat {
    if base >= total then 0 else if total - base >= WINDOW then WINDOW else total - base
  }

  lemma ExpectedBits(base: nat, total: nat)
    ensures WindowCount(base, total) <= WINDOW
    ensures forall k :: 0 <= k < WINDOW ==> (Expected(base, total)[k] <==> k < WindowCount(base, total))
  {
  }

  // ---------- Values ----------

  /** `slots` holds the bytes stored per chunk of the window, empty for a chunk that is missing. */
  datatype Air = Air(active: bool, session: Session, size: nat, total: nat, base: nat, bitmap: Bitmap,
                     slots: seq<seq<u8>>, written: bool)

  function NoSlots(): seq<seq<u8>> { seq(WINDOW, _ => []) }
  function Cleared(): Air { Air(false, 0, 0, 0, 0, Nothing(), NoSlots(), false) }

  datatype Node = Node(air: Air, stream: Stream)

  datatype Reply = Reply(node: Node, ack: Option<Ack>)

  function AckOf(a: Air, state: State): Option<Ack> { Some(Ack(a.session, a.base, a.bitmap, state)) }

  /** air_ota_reset(true): only a stream still being written is aborted. */
  function Reset(n: Node): Node {
    Node(Cleared(), if n.stream.Active? then Abort(n.stream) else n.stream)
  }

  datatype BeginMessage = BeginMessage(session: Session, size: nat, digest: Digest, chunkSize: nat, windowChunks: nat)

  /** process_air_ota_begin; `permitted` is approval and fleet safety, `ok` memory and flash. */
  function OnBegin(n: Node, m: BeginMessage, permitted: bool, ok: bool): Reply {
    if !permitted || m.size == 0 || m.chunkSize != CHUNK || m.windowChunks != WINDOW then
      var air := n.air.(session := m.session);
      Reply(n.(air := air), Some(Ack(m.session, 0, Nothing(), Error)))
    else
      var start := if n.air.active && n.air.session != m.session then Reset(n) else n;
      if start.air.active then Reply(start, AckOf(start.air, Ready))
      else
        var r := Begin(start.stream, m.size, m.digest, ok);
        if r.result == Failed then
          Reply(Node(start.air.(session := m.session), r.stream), Some(Ack(m.session, 0, Nothing(), Error)))
        else
          var air := Air(true, m.session, m.size, Chunks(m.size), 0, Nothing(), NoSlots(), false);
          Reply(Node(air, r.stream), AckOf(air, Ready))
  }

  datatype ChunkMessage = ChunkMessage(session: Session, index: nat, data: seq<u8>)

  /** The window the chunk belongs to becomes current, if the one before it is complete. */
  function Turned(a: Air, base: nat): Air {
    if base == a.base then a else a.(base := base, bitmap := Nothing(), slots := NoSlots(), written := false)
  }

  function Stored(a: Air, slot: nat, data: seq<u8>): Air
    requires slot < WINDOW && |a.slots| == WINDOW
  {
    if a.bitmap[slot] then a else a.(bitmap := a.bitmap[slot := true], slots := a.slots[slot := data])
  }

  /** A window is written to the stream as soon as it is complete; if that fails the node starts over. */
  function Settled(b: Air, s: Stream, oks: seq<bool>): Reply
    requires |oks| == WINDOW && |b.slots| == WINDOW
  {
    if b.bitmap == Expected(b.base, b.total) && !b.written then
      var count := WindowCount(b.base, b.total);
      var r := WriteAll(s, b.slots[..count], oks[..count]);
      if r.result == Failed then Reply(Reset(Node(b, r.stream)), AckOf(b, Error))
      else Reply(Node(b.(written := true), r.stream), AckOf(b, Receiving))
    else Reply(Node(b, s), AckOf(b, Receiving))
  }

  /** process_air_ota_chunk; `oks` says which flash writes succeed. */
  function OnChunk(n: Node, m: ChunkMessage, oks: seq<bool>): Reply
    requires |oks| == WINDOW && |n.air.slots| == WINDOW
  {
    var a := n.air;
    if !a.active || m.session != a.session || m.data == [] || |m.data| > CHUNK || m.index >= a.total then Reply(n, None)
    else
      var base := (m.index / WINDOW) * WINDOW;
      if base != a.base && (!a.written || base != a.base + WINDOW) then Reply(n, AckOf(a, Receiving))
      else Settled(Stored(Turned(a, base), m.index - base, m.data), n.stream, oks)
  }

  datatype CommitMessage = CommitMessage(session: Session, activate: bool)

  /** process_air_ota_commit */
  function OnCommit(n: Node, m: CommitMessage, ok: bool): Reply {
    var a := n.air;
    if !a.active || m.session != a.session then Reply(n, None)
    else if !m.activate && a.written && Remaining(n.stream) == 0 then
      var r := Verify(n.stream, ok);
      if r.result == Ok then Reply(Node(a, r.stream), AckOf(a, Verified))
      else Reply(Reset(Node(a, r.stream)), AckOf(a, Error))
    else if m.activate && n.stream.Staged? then
      var r := Activate(n.stream, ok);
      if r.result == Ok then Reply(Node(a, r.stream), AckOf(a, Activating))
      else Reply(Reset(Node(a, r.stream)), AckOf(a, Error))
    else Reply(Reset(n), AckOf(a, Error))
  }

  /** An abort of any session resets the node. */
  function OnAbort(n: Node): Node { Reset(n) }

  // ---------- The node as the source keeps it ----------

  function SlotsOf(window: seq<u8>, lengths: seq<nat>): (s: seq<seq<u8>>)
    ensures |s| == WINDOW
  {
    seq(WINDOW, k requires 0 <= k < WINDOW =>
          if k < |lengths| && k * CHUNK + lengths[k] <= |window| then window[k * CHUNK..k * CHUNK + lengths[k]] else [])
  }

  lemma EmptySlots(window: seq<u8>, lengths: seq<nat>)
    requires |lengths| == WINDOW && |window| == WINDOW * CHUNK && forall k :: 0 <= k < WINDOW ==> lengths[k] == 0
    ensures SlotsOf(window, lengths) == NoSlots()
  {
    forall k | 0 <= k < WINDOW ensures SlotsOf(window, lengths)[k] == NoSlots()[k] {
      assert lengths[k] == 0;
    }
  }

  /** Storing a chunk's bytes and length changes its slot only. */
  lemma FilledSlot(w: seq<u8>, w': seq<u8>, l: seq<nat>, slot: nat, data: seq<u8>)
    requires |w| == |w'| == WINDOW * CHUNK && |l| == WINDOW && slot < WINDOW && |data| <= CHUNK
    requires forall k :: 0 <= k < WINDOW ==> l[k] <= CHUNK
    requires forall i :: 0 <= i < |w| ==>
      w'[i] == if slot * CHUNK <= i < slot * CHUNK + |data| then data[i - slot * CHUNK] else w[i]
    ensures SlotsOf(w', l[slot := |data|]) == SlotsOf(w, l)[slot := data]
  {
    var l' := l[slot := |data|];
    forall k | 0 <= k < WINDOW ensures SlotsOf(w', l')[k] == SlotsOf(w, l)[slot := data][k] {
      SlotBytes(w', l', k);
      SlotBytes(w, l, k);
    }
  }

  lemma SlotBytes(w: seq<u8>, l: seq<nat>, k: nat)
    requires |w| == WINDOW * CHUNK && |l| == WINDOW && k < WINDOW && l[k] <= CHUNK
    ensures k * CHUNK + l[k] <= |w| && SlotsOf(w, l)[k] == w[k * CHUNK..k * CHUNK + l[k]]
  {
  }

  class AirOta {
    var active: bool
    var session: Session
    var imageSize: nat
    var totalChunks: nat
    var windowBase: nat
    var bitmap: Bitmap
    const window: array<u8>
    const lengths: array<nat>
    var windowWritten: bool
    const stream: OtaStream

    ghost predicate Valid()
      reads this, window, lengths, stream
    {
      && window.Length == WINDOW * CHUNK && lengths.Length == WINDOW && stream.Valid()
      && (forall k :: 0 <= k < WINDOW ==> lengths[k] <= CHUNK && (bitmap[k] <==> lengths[k] > 0))
    }

    /** The bytes stored for each chunk of the window. */
    ghost function Slots(): (s: seq<seq<u8>>)
      reads window, lengths
      ensures |s| == WINDOW
    {
      SlotsOf(window[..], lengths[..])
    }

    ghost function Value(): Node
      requires Valid()
      reads this, window, lengths, stream
    {
      Node(Air(active, session, imageSize, totalChunks, windowBase, bitmap, Slots(), windowWritten), stream.Value())
    }

    constructor ()
      ensures Valid() && Value() == Node(Cleared(), Idle)
      ensures fresh(window) && fresh(lengths) && fresh(stream)
    {
      active, session, imageSize, totalChunks, windowBase, bitmap := false, 0, 0, 0, 0, Nothing();
      windowWritten := false;
      window := new u8[WINDOW * CHUNK](i => 0);
      lengths := new nat[WINDOW](i => 0);
      stream := new OtaStream();
      new;
      EmptySlots(window[..], lengths[..]);
    }

    method ClearAir()
      requires Valid()
      modifies this, lengths
      ensures Valid() && Value() == old(Value()).(air := Cleared())
    {
      active, session, imageSize, totalChunks, windowBase, bitmap := false, 0, 0, 0, 0, Nothing();
      windowWritten := false;
      forall k | 0 <= k < lengths.Length {
        lengths[k] := 0;
      }
      EmptySlots(window[..], lengths[..]);
    }

    /** air_ota_reset */
    method ResetAir(abortStream: bool)
      requires Valid() && abortStream
      modifies this, lengths, stream
      ensures Valid() && Value() == Reset(old(Value()))
    {
      if abortStream && stream.active {
        stream.AbortStream();
      }
      ClearAir();
    }

    method Relabel(s: Session)
      requires Valid()
      modifies `session
      ensures Valid() && Value() == old(Value()).(air := old(Value()).air.(session := s))
    {
      session := s;
    }

    method MarkWritten()
      requires Valid()
      modifies `windowWritten
      ensures Valid() && Value() == old(Value()).(air := old(Value()).air.(written := true))
    {
      windowWritten := true;
    }

    /** process_air_ota_begin */
    method ProcessBegin(m: BeginMessage, permitted: bool, ok: bool) returns (ack: Option<Ack>)
      requires Valid()
      modifies this, lengths, stream
      ensures Valid() && Reply(Value(), ack) == OnBegin(old(Value()), m, permitted, ok)
    {
      hide SlotsOf, Reset, Begin;
      if !permitted || m.size == 0 || m.chunkSize != CHUNK || m.windowChunks != WINDOW {
        Relabel(m.session);
        return Some(Ack(m.session, 0, Nothing(), Error));
      }
      if active && session != m.session {
        ResetAir(true);
      }
      if !active {
        var r := stream.BeginStream(m.size, m.digest, ok);
        if r != Ok {
          Relabel(m.session);
          return Some(Ack(m.session, 0, Nothing(), Error));
        }
        ClearAir();
        active, session, imageSize, totalChunks := true, m.session, m.size, (m.size + CHUNK - 1) / CHUNK;
      }
      return Some(Ack(session, windowBase, bitmap, Ready));
    }

    /** Makes the next window current. */
    method TurnWindow(base: nat)
      requires Valid() && base != windowBase
      modifies this, lengths
      ensures Valid() && Value() == old(Value()).(air := Turned(old(Value()).air, base))
    {
      windowBase, bitmap, windowWritten := base, Nothing(), false;
      forall k | 0 <= k < lengths.Length {
        lengths[k] := 0;
      }
      EmptySlots(window[..], lengths[..]);
    }

    /** Stores a chunk the window does not have yet. */
    method StoreChunk(slot: nat, data: seq<u8>)
      requires Valid() && slot < WINDOW && 0 < |data| <= CHUNK
      modifies this, window, lengths
      ensures Valid() && Value() == old(Value()).(air := Stored(old(Value()).air, slot, data))
    {
      hide SlotsOf;
      if !bitmap[slot] {
        ghost var w: seq<u8>, l: seq<nat> := window[..], lengths[..];
        forall k | 0 <= k < |data| {
          window[slot * CHUNK + k] := data[k];
        }
        FilledSlot(w, window[..], l, slot, data);
        lengths[slot] := |data|;
        assert lengths[..] == l[slot := |data|];
        bitmap := bitmap[slot := true];
      }
    }

    /** Writes the chunks of a complete window to the stream, until a write fails. */
    method WriteWindow(count: nat, oks: seq<bool>) returns (done: bool)
      requires Valid() && count <= |oks| == WINDOW
      requires forall k :: 0 <= k < count ==> bitmap[k]
      modifies stream
      ensures Valid() && Value().air == old(Value()).air
      ensures Stepped(Value().stream, if done then Ok else Failed) == WriteAll(old(Value()).stream, old(Value()).air.slots[..count], oks[..count])
    {
      ghost var pieces, all := Slots()[..count], WriteAll(stream.Value(), Slots()[..count], oks[..count]);
      assert pieces[0..] == pieces && oks[..count][0..] == oks[..count];
      for i := 0 to count
        invariant Valid() && Value().air == old(Value()).air
        invariant Slots()[..count] == pieces
        invariant all == WriteAll(stream.Value(), pieces[i..], oks[..count][i..])
      {
        assert pieces[i..][0] == window[i * CHUNK..i * CHUNK + lengths[i]];
        assert pieces[i..][1..] == pieces[i + 1..] && oks[..count][i..][1..] == oks[..count][i + 1..];
        if lengths[i] == 0 {
          return false;
        }
        var r := stream.WriteStream(window[i * CHUNK..i * CHUNK + lengths[i]], oks[i]);
        if r != Ok {
          return false;
        }
      }
      return true;
    }

    /** process_air_ota_chunk */
    method ProcessChunk(m: ChunkMessage, oks: seq<bool>) returns (ack: Option<Ack>)
      requires Valid() && |oks| == WINDOW
      modifies this, window, lengths, stream
      ensures Valid() && Reply(Value(), ack) == OnChunk(old(Value()), m, oks)
    {
      hide SlotsOf, Reset, WriteAll, Expected, WindowCount;
      if !active || m.session != session || |m.data| == 0 || |m.data| > CHUNK || m.index >= totalChunks {
        return None;
      }
      var base := (m.index / WINDOW) * WINDOW;
      if base != windowBase {
        if !windowWritten || base != windowBase + WINDOW {
          return Some(Ack(session, windowBase, bitmap, Receiving));
        }
        TurnWindow(base);
      }
      StoreChunk(m.index - base, m.data);
      var expected := Expected(base, totalChunks);
      if bitmap == expected && !windowWritten {
        var count := WindowCount(base, totalChunks);
        ExpectedBits(base, totalChunks);
        var written := WriteWindow(count, oks);
        if !written {
          ack := Some(Ack(session, base, bitmap, Error));
          ResetAir(true);
          return;
        }
        MarkWritten();
      }
      return Some(Ack(session, base, bitmap, Receiving));
    }

    /** process_air_ota_commit */
    method ProcessCommit(m: CommitMessage, ok: bool) returns (ack: Option<Ack>)
      requires Valid()
      modifies this, lengths, stream
      ensures Valid() && Reply(Value(), ack) == OnCommit(old(Value()), m, ok)
    {
      if !active || m.session != session {
        return None;
      }
      var state := Error;
      if !m.activate {
        var remaining := stream.RemainingBytes();
        if windowWritten && remaining == 0 {
          var r := stream.VerifyStream(ok);
          if r == Ok {
            state := Verified;
          }
        }
      } else if stream.verified {
        var r := stream.ActivateStream(ok);
        if r == Ok {
          state := Activating;
        }
      }
      ack := Some(Ack(session, windowBase, bitmap, state));
      if state == Error {
        ResetAir(true);
      }
    }
  }
}
