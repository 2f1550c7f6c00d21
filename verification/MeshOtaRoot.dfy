/** The root's side of a mesh firmware transfer as the source keeps it: the current window in a buffer. */
module MeshOtaRoot {
  import opened Bits
  import opened MeshOtaNode
  import opened MeshOtaFleet

  datatype Written = Refused | Stored | WindowFull

  function MessageFor(r: Root, slot: nat): ChunkMessage
    requires slot < |r.slots|
  {
    ChunkMessage(r.session, r.base + slot, r.slots[slot])
  }

  /** The chunks among the first n of a window that are not acknowledged, in order. */
  function Missing(r: Root, acknowledged: Bitmap, n: nat): seq<ChunkMessage>
    requires n <= WINDOW == |r.slots|
  {
    if n == 0 then []
    else Missing(r, acknowledged, n - 1) + (if acknowledged[n - 1] then [] else [MessageFor(r, n - 1)])
  }

  /** These are exactly the messages of the unacknowledged slots. */
  lemma {:induction false} MissingExact(r: Root, acknowledged: Bitmap, n: nat, m: ChunkMessage)
    requires n <= WINDOW == |r.slots|
    ensures m in Missing(r, acknowledged, n) <==> exists k :: 0 <= k < n && !acknowledged[k] && m == MessageFor(r, k)
  {
    if n > 0 {
      MissingExact(r, acknowledged, n - 1, m);
      if m in Missing(r, acknowledged, n - 1) {
        var k :| 0 <= k < n - 1 && !acknowledged[k] && m == MessageFor(r, k);
      }
    }
  }

  class RootOta {
    var session: Session
    var imageSize: nat
    var bytesReceived: nat
    var totalChunks: nat
    var windowBase: nat
    var windowBitmap: Bitmap
    const window: array<u8>
    const lengths: array<nat>
    const targets: set<nat>

    /** Chunks come in order, so the slots in use are the ones up to the last byte received. */
    ghost predicate Valid()
      reads this, window, lengths
    {
      && window.Length == WINDOW * CHUNK && lengths.Length == WINDOW && totalChunks == Chunks(imageSize)
      && (forall k :: 0 <= k < WINDOW ==> lengths[k] <= CHUNK)
      && bytesReceived <= imageSize && (bytesReceived < imageSize ==> bytesReceived % CHUNK == 0)
      && windowBase % WINDOW == 0
      && (forall k :: 0 <= k < WINDOW ==> (windowBitmap[k] <==> windowBase + k < Chunks(bytesReceived)))
    }

    ghost function Value(phase: Phase): Root
      reads this, window, lengths
    {
      Root(phase, session, imageSize, bytesReceived, windowBase, SlotsOf(window[..], lengths[..]), targets)
    }

    constructor (session: Session, imageSize: nat, targets: set<nat>)
      requires imageSize > 0
      ensures Valid() && Value(Filling) == Root(Filling, session, imageSize, 0, 0, NoSlots(), targets)
      ensures fresh(window) && fresh(lengths)
    {
      this.session, this.imageSize, this.targets := session, imageSize, targets;
      bytesReceived, totalChunks, windowBase, windowBitmap := 0, (imageSize + CHUNK - 1) / CHUNK, 0, Nothing();
      window := new u8[WINDOW * CHUNK](i => 0);
      lengths := new nat[WINDOW](i => 0);
      new;
      EmptySlots(window[..], lengths[..]);
    }

    /** airlink_mesh_ota_write up to the distribution of a full window, which then holds every chunk it should. */
    method Write(data: seq<u8>) returns (w: Written)
      requires Valid()
      modifies this, window, lengths
      ensures Valid()
      ensures w.Refused? <==> Fed(old(Value(Filling)), data) == None
      ensures w.Refused? ==> Value(Filling) == old(Value(Filling))
      ensures !w.Refused? ==> Fed(old(Value(Filling)), data) == Some(Value(if w.WindowFull? then Flushing else Filling))
      ensures w.WindowFull? ==> windowBitmap == Expected(windowBase, totalChunks)
    {
      hide SlotsOf;
      if |data| == 0 || |data| > CHUNK || bytesReceived + |data| > imageSize ||
         (bytesReceived + |data| < imageSize && |data| != CHUNK) {
        return Refused;
      }
      var slot := bytesReceived / CHUNK - windowBase;
      if slot < 0 || slot >= WINDOW {
        return Refused;
      }
      Copy(slot, data);
      windowBitmap := windowBitmap[slot := true];
      bytesReceived := bytesReceived + |data|;
      if slot == WINDOW - 1 || bytesReceived == imageSize {
        return WindowFull;
      }
      return Stored;
    }

    method Copy(slot: nat, data: seq<u8>)
      requires Valid() && slot < WINDOW && |data| <= CHUNK
      modifies window, lengths
      ensures Valid()
      ensures SlotsOf(window[..], lengths[..]) == old(SlotsOf(window[..], lengths[..]))[slot := data]
    {
      hide SlotsOf;
      ghost var w: seq<u8>, l: seq<nat> := window[..], lengths[..];
      forall k | 0 <= k < |data| {
        window[slot * CHUNK + k] := data[k];
      }
      FilledSlot(w, window[..], l, slot, data);
      lengths[slot] := |data|;
      assert lengths[..] == l[slot := |data|];
    }

    /** The group distribution of root_ota_flush_window: every chunk of the window once, in order. */
    method Distribution() returns (ms: seq<ChunkMessage>)
      requires Valid() && windowBitmap == Expected(windowBase, totalChunks)
      ensures ms == Missing(Value(Flushing), Nothing(), WindowCount(windowBase, totalChunks))
    {
      hide Expected;
      ms := SendMissing(Nothing());
    }

    /** The repair of one node: the chunks it did not acknowledge, and no others. */
    method SendMissing(acknowledged: Bitmap) returns (ms: seq<ChunkMessage>)
      requires Valid()
      ensures ms == Missing(Value(Flushing), acknowledged, WindowCount(windowBase, totalChunks))
    {
      hide SlotsOf, Expected;
      ExpectedBits(windowBase, totalChunks);
      var count := WindowCount(windowBase, totalChunks);
      ms := [];
      for slot := 0 to count
        invariant ms == Missing(Value(Flushing), acknowledged, slot)
      {
        if !acknowledged[slot] {
          SlotBytes(window[..], lengths[..], slot);
          ms := ms + [ChunkMessage(session, windowBase + slot, window[slot * CHUNK..slot * CHUNK + lengths[slot]])];
        }
      }
    }

    /** One look at the table while waiting: has a target failed, has every target the whole window? */
    method Look(table: seq<Entry>) returns (complete: bool, failed: bool)
      requires Valid()
      ensures failed <==> exists i :: 0 <= i < |table| && i in targets && table[i].state == Error
      ensures complete <==> forall i :: 0 <= i < |table| && i in targets ==>
        table[i].base == windowBase && table[i].bitmap == Expected(windowBase, totalChunks)
    {
      complete, failed := true, false;
      var expected := Expected(windowBase, totalChunks);
      for i := 0 to |table|
        invariant failed <==> exists j :: 0 <= j < i && j in targets && table[j].state == Error
        invariant complete <==> forall j :: 0 <= j < i && j in targets ==> table[j].base == windowBase && table[j].bitmap == expected
      {
        if i in targets {
          if table[i].state == Error {
            failed := true;
          }
          if table[i].base != windowBase || table[i].bitmap != expected {
            complete := false;
          }
        }
      }
    }

    /** The window is complete everywhere: on to the next. */
    method NextWindow()
      requires Valid() && Chunks(bytesReceived) <= windowBase + WINDOW
      modifies this, lengths
      ensures Valid()
      ensures Value(Filling) == old(Value(Filling)).(base := old(windowBase) + WINDOW, slots := NoSlots())
    {
      windowBase, windowBitmap := windowBase + WINDOW, Nothing();
      forall k | 0 <= k < lengths.Length {
        lengths[k] := 0;
      }
      EmptySlots(window[..], lengths[..]);
    }
  }
}
